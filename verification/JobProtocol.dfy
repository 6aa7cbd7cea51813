/** The job manager as threads around one mutex. `create` holds the mutex across a blocking join, so it is split;
    every other critical section is one event that needs the mutex free. Worker events that take no lock are
    `WorkerForks`, `WorkerReaps` and `WorkerExits`. */
module JobProtocol {
  import opened Common
  import opened JobManager

  datatype Holder = Free | Creating(id: string, kind: string, joined: bool)

  /** Where the worker thread stands; `Leaving` has released the mutex for the last time. */
  datatype Stage = Forking | Starting(pid: nat) | ForkFailing | Waiting | Finishing(status: WaitStatus) |
                   Leaving | Gone

  /** `NoWorker` is a thread object that is not joinable. */
  datatype Worker = NoWorker | Worker(ref: Ref, stage: Stage)

  datatype SystemState = System(store: Store, holder: Holder, worker: Worker, nextRef: Ref)

  /** The history and the worker hold shared pointers, so every one of them leads to a job. */
  predicate Resolves(y: SystemState) {
    (forall r :: r in y.store.jobs ==> r in y.store.table) &&
    (y.worker.Worker? ==> y.worker.ref in y.store.table)
  }

  type System = y: SystemState | Resolves(y) witness System(Store(map[], [], None), Free, NoWorker, 0)

  datatype Event =
    | CreateEnters(newId: string, newKind: string)
    | CreateJoins
    | CreateFails                 // the job directory cannot be made
    | CreateSpawns(spawned: bool) // persisting the job or starting the thread may throw after the insertion
    | CancelArrives(id: string)
    | ShutdownArrives
    | WorkerForks(forked: Option<nat>)
    | WorkerStarts
    | WorkerReports               // the fork failed
    | WorkerReaps(reaped: WaitStatus)
    | WorkerFinishes
    | WorkerExits

  predicate Joinable(y: System) {
    y.worker.NoWorker? || y.worker.stage.Gone?
  }

  /** The event can happen now: its thread is there and, if it needs the mutex, the mutex is free. */
  predicate Enabled(y: System, e: Event) {
    match e
    case CreateEnters(_, _) => y.holder.Free?
    case CreateJoins => y.holder.Creating? && !y.holder.joined && Joinable(y)
    case CreateFails => y.holder.Creating? && y.holder.joined
    case CreateSpawns(_) => y.holder.Creating? && y.holder.joined
    case CancelArrives(_) => y.holder.Free?
    case ShutdownArrives => y.holder.Free?
    case WorkerForks(_) => y.worker.Worker? && y.worker.stage.Forking?
    case WorkerStarts => y.holder.Free? && y.worker.Worker? && y.worker.stage.Starting?
    case WorkerReports => y.holder.Free? && y.worker.Worker? && y.worker.stage.ForkFailing?
    case WorkerReaps(_) => y.worker.Worker? && y.worker.stage.Waiting?
    case WorkerFinishes => y.holder.Free? && y.worker.Worker? && y.worker.stage.Finishing?
    case WorkerExits => y.worker.Worker? && y.worker.stage.Leaving?
  }

  function Reached(y: System, stage: Stage, store: Store): (y': System)
    requires y.worker.Worker? && store.jobs == y.store.jobs && store.table.Keys == y.store.table.Keys
  {
    y.(worker := y.worker.(stage := stage), store := store)
  }

  function Spawned(y: System, started: bool): (y': System)
    requires y.holder.Creating?
  {
    System(Enqueue(y.store, y.nextRef, Queued(y.holder.id, y.holder.kind)), Free,
           if started then Worker(y.nextRef, Forking) else NoWorker, y.nextRef + 1)
  }

  function Next(y: System, e: Event): (y': System) {
    if !Enabled(y, e) then y else
    match e
    case CreateEnters(id, kind) =>
      if y.store.active.Some? then y else y.(holder := Creating(id, kind, false))
    case CreateJoins => y.(holder := y.holder.(joined := true), worker := NoWorker)
    case CreateFails => y.(holder := Free)
    case CreateSpawns(spawned) => Spawned(y, spawned)
    case CancelArrives(id) => y.(store := Cancel(y.store, id))
    case ShutdownArrives => y.(store := Shutdown(y.store))
    case WorkerForks(pid) =>
      Reached(y, if pid.Some? then Starting(pid.value) else ForkFailing, y.store)
    case WorkerStarts => Reached(y, Waiting, Started(y.store, y.worker.ref, y.worker.stage.pid))
    case WorkerReports => Reached(y, Leaving, ForkFailed(y.store, y.worker.ref))
    case WorkerReaps(status) => Reached(y, Finishing(status), y.store)
    case WorkerFinishes => Reached(y, Leaving, Finished(y.store, y.worker.ref, y.worker.stage.status))
    case WorkerExits => Reached(y, Gone, y.store)
  }

  /** The thread still needs the mutex. */
  predicate Working(stage: Stage) {
    !stage.Leaving? && !stage.Gone?
  }

  ghost predicate WorkerInv(y: System) {
    match y.worker
    case NoWorker => true
    case Worker(ref, stage) =>
      && ref in y.store.table
      && (Working(stage) <==> y.store.active == Some(ref))
      && (!Working(stage) ==> y.store.active.None?)
      && (stage.Forking? || stage.Starting? || stage.ForkFailing? ==> y.store.table[ref].state == "queued")
      && (stage.Waiting? || stage.Finishing? ==> y.store.table[ref].state == "running")
  }

  ghost predicate SystemInv(y: System) {
    && SlotInv(y.store)
    && (forall r :: r in y.store.table ==> r < y.nextRef)
    && WorkerInv(y)
    && (y.holder.Creating? ==> y.store.active.None? && (y.holder.joined ==> y.worker.NoWorker?))
  }

  /** After loading a history with nothing live. */
  ghost predicate Initial(y: System) {
    SystemInv(y) && y.store.active.None? && y.holder.Free? && y.worker.NoWorker?
  }

  lemma FrontStaysDistinct(jobs: seq<Ref>, ref: Ref)
    requires ref !in jobs && forall i, j :: 0 <= i < j < |jobs| ==> jobs[i] != jobs[j]
    ensures var all := [ref] + jobs; forall i, j :: 0 <= i < j < |all| ==> all[i] != all[j]
  {
  }

  lemma EnqueueKeepsSlot(s: Store, ref: Ref, job: Job)
    requires SlotInv(s) && s.active.None? && ref !in s.table && job.state == "queued" && !job.cancelRequested
    ensures SlotInv(Enqueue(s, ref, job))
  {
    var s' := Enqueue(s, ref, job);
    assert ref !in s.jobs;
    FrontStaysDistinct(s.jobs, ref);
    assert s'.jobs <= [ref] + s.jobs;
    assert forall r :: r in s'.jobs ==> r == ref || r in s.jobs;
  }

  lemma CancelKeepsSlot(s: Store, id: string)
    requires SlotInv(s)
    ensures SlotInv(Cancel(s, id))
  {
  }

  lemma FinishedKeepsSlot(s: Store, ref: Ref, status: WaitStatus)
    requires SlotInv(s) && s.active == Some(ref)
    ensures ref in s.table && SlotInv(Finished(s, ref, status))
  {
    assert s.jobs[0] in s.jobs;
  }

  lemma WorkerStepKeepsInv(y: System, e: Event)
    requires SystemInv(y) && (e.WorkerForks? || e.WorkerStarts? || e.WorkerReports? || e.WorkerReaps? ||
                              e.WorkerFinishes? || e.WorkerExits?)
    ensures SystemInv(Next(y, e))
  {
    if e.WorkerFinishes? && Enabled(y, e) {
      FinishedKeepsSlot(y.store, y.worker.ref, y.worker.stage.status);
    }
  }

  /** The slot protocol holds after every event. */
  lemma StepKeepsInv(y: System, e: Event)
    requires SystemInv(y)
    ensures SystemInv(Next(y, e))
  {
    match e
    case CreateSpawns(spawned) =>
      if Enabled(y, e) {
        EnqueueKeepsSlot(y.store, y.nextRef, Queued(y.holder.id, y.holder.kind));
      }
    case CancelArrives(id) => CancelKeepsSlot(y.store, id);
    case CreateEnters(_, _) =>
    case CreateJoins =>
    case CreateFails =>
    case ShutdownArrives =>
    case _ => WorkerStepKeepsInv(y, e);
  }

  /** Some event leads from state `k` of the list to the next. */
  ghost predicate MovesAt(ys: seq<System>, k: nat)
    requires k < |ys| - 1
  {
    exists e :: ys[k + 1] == Next(ys[k], e)
  }

  /** The states of one run, from a loaded history. */
  ghost predicate Behavior(ys: seq<System>) {
    |ys| > 0 && Initial(ys[0]) && forall k: nat :: k < |ys| - 1 ==> MovesAt(ys, k)
  }

  lemma {:induction false} InvHolds(ys: seq<System>, k: nat)
    requires Behavior(ys) && k < |ys|
    ensures SystemInv(ys[k])
  {
    if k > 0 {
      InvHolds(ys, k - 1);
      assert MovesAt(ys, k - 1);
      var e :| ys[k] == Next(ys[k - 1], e);
      StepKeepsInv(ys[k - 1], e);
    }
  }

  /** Job slot: in every interleaving at most fifty jobs are kept, and either no job is live and none is active, or
      exactly one is live and it is both the active job and the newest in the history. */
  lemma SlotHolds(ys: seq<System>, k: nat)
    requires Behavior(ys) && k < |ys|
    ensures var s := ys[k].store;
            && |s.jobs| <= HISTORY_LIMIT
            && (s.active.None? ==> forall r :: r in s.table ==> !Live(s.table[r].state))
            && (s.active.Some? ==>
                  && |s.jobs| > 0 && s.jobs[0] == s.active.value && s.active.value in s.table
                  && forall r :: r in s.table ==> (Live(s.table[r].state) <==> r == s.active.value))
  {
    InvHolds(ys, k);
    var s := ys[k].store;
    if s.active.Some? {
      assert s.jobs[0] in s.jobs;
    }
  }

  /** The join of the holder returns at once, or as soon as the worker ends, which takes no lock. */
  ghost predicate JoinReturns(y: System) {
    && (y.worker.Worker? ==> !Working(y.worker.stage))
    && (Enabled(y, CreateJoins) || (Enabled(y, WorkerExits) && Enabled(Next(y, WorkerExits), CreateJoins)))
  }

  lemma HolderCanJoin(y: System)
    requires SystemInv(y) && y.holder.Creating? && !y.holder.joined
    ensures JoinReturns(y)
  {
  }

  /** Deadlock freedom: whenever `create` holds the mutex and has not joined yet, the previous worker has left its
      last critical section, so it reaches its end without the mutex and the join returns. */
  lemma JoinNeverDeadlocks(ys: seq<System>, k: nat)
    requires Behavior(ys) && k < |ys| && ys[k].holder.Creating? && !ys[k].holder.joined
    ensures JoinReturns(ys[k])
  {
    InvHolds(ys, k);
    HolderCanJoin(ys[k]);
  }

  predicate Busy(y: System) {
    (y.worker.Worker? && !y.worker.stage.Gone?) || y.holder.Creating?
  }

  /** Some event of the worker or of the holder is enabled. */
  predicate CanMove(y: System) {
    Enabled(y, WorkerForks(None)) || Enabled(y, WorkerStarts) || Enabled(y, WorkerReports) ||
    Enabled(y, WorkerReaps(Exited(0))) || Enabled(y, WorkerFinishes) || Enabled(y, WorkerExits) ||
    Enabled(y, CreateJoins) || Enabled(y, CreateFails)
  }

  lemma BusyCanMove(y: System)
    requires SystemInv(y) && Busy(y)
    ensures CanMove(y)
  {
  }

  /** No interleaving stops the system: while a worker has work left or the mutex is held, somebody can move. */
  lemma SomebodyCanMove(ys: seq<System>, k: nat)
    requires Behavior(ys) && k < |ys| && Busy(ys[k])
    ensures CanMove(ys[k])
  {
    InvHolds(ys, k);
    BusyCanMove(ys[k]);
  }

  // ----- what happens to one job

  /** A job never goes back: terminal jobs keep every field, requests to cancel stick. */
  ghost predicate Monotone(s: Store, s': Store) {
    forall r :: r in s.table ==>
      && r in s'.table
      && (!Live(s.table[r].state) ==> s'.table[r] == s.table[r])
      && (s.table[r].cancelRequested ==> s'.table[r].cancelRequested)
      && (s.table[r].state == "running" && s.table[r].cancelRequested ==>
            s'.table[r].state == "running" || s'.table[r].state == "cancelled")
  }

  lemma StepMonotone(y: System, e: Event)
    requires SystemInv(y)
    ensures Monotone(y.store, Next(y, e).store)
  {
  }

  lemma {:induction false} RunMonotone(ys: seq<System>, i: nat, j: nat)
    requires Behavior(ys) && i <= j < |ys|
    ensures Monotone(ys[i].store, ys[j].store)
    decreases j
  {
    if i < j {
      RunMonotone(ys, i, j - 1);
      InvHolds(ys, j - 1);
      assert MovesAt(ys, j - 1);
      var e :| ys[j] == Next(ys[j - 1], e);
      StepMonotone(ys[j - 1], e);
    }
  }

  /** Terminal states never change, at any later moment of any run. */
  lemma TerminalIsFinal(ys: seq<System>, i: nat, j: nat, r: Ref)
    requires Behavior(ys) && i <= j < |ys| && r in ys[i].store.table && !Live(ys[i].store.table[r].state)
    ensures r in ys[j].store.table && ys[j].store.table[r] == ys[i].store.table[r]
  {
    RunMonotone(ys, i, j);
  }

  /** An accepted cancel never ends in success, and ends in `cancelled` if the job was already running. */
  lemma CancelNeverSucceeds(ys: seq<System>, i: nat, j: nat, id: string)
    requires Behavior(ys) && i < j < |ys|
    requires Enabled(ys[i], CancelArrives(id)) && ys[i + 1] == Next(ys[i], CancelArrives(id))
    requires CancelReplyFor(ys[i].store, id).Cancelling?
    ensures var ref := Find(ys[i].store, id, 0).value;
            var end := ys[j].store.table;
            && ref in end && end[ref].cancelRequested && end[ref].state != "succeeded"
            && (ys[i].store.table[ref].state == "running" ==>
                  end[ref].state == "running" || end[ref].state == "cancelled")
  {
    InvHolds(ys, j);
    RunMonotone(ys, i + 1, j);
  }

  // ----- liveness of the slot

  /** The insertion threw before a thread was started: the active job has no worker. */
  predicate Orphaned(y: System) {
    y.store.active.Some? && y.worker.NoWorker?
  }

  /** Each worker stage to the end of the job. */
  function Completion(stage: Stage): (es: seq<Event>) {
    match stage
    case Forking => [WorkerForks(Some(1)), WorkerStarts, WorkerReaps(Exited(0)), WorkerFinishes]
    case Starting(_) => [WorkerStarts, WorkerReaps(Exited(0)), WorkerFinishes]
    case ForkFailing => [WorkerReports]
    case Waiting => [WorkerReaps(Exited(0)), WorkerFinishes]
    case Finishing(_) => [WorkerFinishes]
    case Leaving => []
    case Gone => []
  }

  function Play(y: System, es: seq<Event>): (y': System)
    decreases |es|
  {
    if es == [] then y else Play(Next(y, es[0]), es[1..])
  }

  lemma ForkingCompletes(y: System)
    requires SystemInv(y) && y.holder.Free? && y.worker.Worker?
    ensures Play(y, Completion(y.worker.stage)).store.active.None?
  {
    var es := Completion(y.worker.stage);
    match y.worker.stage
    case Forking =>
      StepKeepsInv(y, es[0]);
      var y1 := Next(y, es[0]);
      assert es[1..] == Completion(y1.worker.stage);
      ForkedCompletes(y1);
    case _ => ForkedCompletes(y);
  }

  lemma ForkedCompletes(y: System)
    requires SystemInv(y) && y.holder.Free? && y.worker.Worker? && !y.worker.stage.Forking?
    ensures Play(y, Completion(y.worker.stage)).store.active.None?
  {
    var es := Completion(y.worker.stage);
    match y.worker.stage
    case Starting(_) =>
      StepKeepsInv(y, es[0]);
      var y1 := Next(y, es[0]);
      assert es[1..] == Completion(y1.worker.stage);
      WaitingCompletes(y1);
    case ForkFailing =>
      StepKeepsInv(y, es[0]);
      assert es[1..] == [];
    case Waiting => WaitingCompletes(y);
    case Finishing(_) => FinishingCompletes(y);
    case _ =>
  }

  lemma WaitingCompletes(y: System)
    requires SystemInv(y) && y.holder.Free? && y.worker.Worker? && y.worker.stage.Waiting?
    ensures Play(y, Completion(y.worker.stage)).store.active.None?
  {
    var es := Completion(y.worker.stage);
    StepKeepsInv(y, es[0]);
    var y1 := Next(y, es[0]);
    assert es[1..] == Completion(y1.worker.stage);
    FinishingCompletes(y1);
  }

  lemma FinishingCompletes(y: System)
    requires SystemInv(y) && y.holder.Free? && y.worker.Worker? && y.worker.stage.Finishing?
    ensures Play(y, Completion(y.worker.stage)).store.active.None?
  {
    var es := Completion(y.worker.stage);
    StepKeepsInv(y, es[0]);
    assert es[1..] == [];
  }

  lemma {:induction false} OrphanedForever(y: System, es: seq<Event>)
    requires SystemInv(y) && Orphaned(y)
    ensures Orphaned(Play(y, es)) && Play(y, es).store.active == y.store.active
    decreases |es|
  {
    if es != [] {
      StepKeepsInv(y, es[0]);
      OrphanedForever(Next(y, es[0]), es[1..]);
    }
  }

  /** The slot can be freed again exactly unless the insertion threw between claiming it and starting the worker;
      in that case the active job stays queued and every later `create` is refused. */
  lemma SlotFreesUnlessOrphaned(ys: seq<System>, k: nat)
    requires Behavior(ys) && k < |ys| && ys[k].store.active.Some?
    ensures (exists later :: Play(ys[k], later).store.active.None?) <==> !Orphaned(ys[k])
  {
    InvHolds(ys, k);
    if Orphaned(ys[k]) {
      forall later
        ensures Play(ys[k], later).store.active.Some?
      {
        OrphanedForever(ys[k], later);
      }
    } else {
      ForkingCompletes(ys[k]);
    }
  }

  /** And that state is reached: from an empty history, one request whose worker cannot be started. */
  lemma OrphanReached(id: string, kind: string)
    ensures var y := System(Store(map[], [], None), Free, NoWorker, 0);
            var y1 := Next(y, CreateEnters(id, kind));
            var y2 := Next(y1, CreateJoins);
            var y3 := Next(y2, CreateSpawns(false));
            Behavior([y, y1, y2, y3]) && Orphaned(y3) && y3.store.table[0].state == "queued"
  {
    var y := System(Store(map[], [], None), Free, NoWorker, 0);
    var y1 := Next(y, CreateEnters(id, kind));
    var y2 := Next(y1, CreateJoins);
    var y3 := Next(y2, CreateSpawns(false));
    var ys := [y, y1, y2, y3];
    assert MovesAt(ys, 0) by { assert ys[1] == Next(ys[0], CreateEnters(id, kind)); }
    assert MovesAt(ys, 1) by { assert ys[2] == Next(ys[1], CreateJoins); }
    assert MovesAt(ys, 2) by { assert ys[3] == Next(ys[2], CreateSpawns(false)); }
  }
}
