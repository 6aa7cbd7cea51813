/** The job manager's critical sections. `table` stands for the shared job objects, `jobs` for the history of
    pointers into it, newest first. */
module JobManager {
  import opened Common

  const HISTORY_LIMIT := 50

  datatype Job = Job(id: string, kind: string, state: string, reason: string, pid: int, exitCode: int,
                     cancelRequested: bool)

  type Ref = nat

  datatype Store = Store(table: map<Ref, Job>, jobs: seq<Ref>, active: Option<Ref>)

  /** What `waitpid` reported. */
  datatype WaitStatus = WaitError | Exited(code: int) | Signalled(signal: int)

  predicate Live(state: string) {
    state == "queued" || state == "running"
  }

  function Queued(id: string, kind: string): (job: Job) {
    Job(id, kind, "queued", "", -1, -1, false)
  }

  /** Insert at the front, cap the history, make it the active job. */
  function Enqueue(s: Store, ref: Ref, job: Job): (s': Store) {
    var jobs := [ref] + s.jobs;
    Store(s.table[ref := job], if |jobs| > HISTORY_LIMIT then jobs[..HISTORY_LIMIT] else jobs, Some(ref))
  }

  function ForkFailed(s: Store, ref: Ref): (s': Store)
    requires ref in s.table
  {
    Store(s.table[ref := s.table[ref].(state := "failed", exitCode := 127)], s.jobs, None)
  }

  function Started(s: Store, ref: Ref, pid: int): (s': Store)
    requires ref in s.table
  {
    s.(table := s.table[ref := s.table[ref].(pid := pid, state := "running")])
  }

  function FinalState(job: Job, status: WaitStatus): (state: string) {
    if job.cancelRequested then "cancelled"
    else if status == Exited(0) then "succeeded" else "failed"
  }

  function ExitCode(status: WaitStatus): (code: int) {
    match status
    case WaitError => 127
    case Exited(code) => code
    case Signalled(signal) => 128 + signal
  }

  function Finished(s: Store, ref: Ref, status: WaitStatus): (s': Store)
    requires ref in s.table
  {
    var job := s.table[ref];
    Store(s.table[ref := job.(state := FinalState(job, status), exitCode := ExitCode(status), pid := -1)],
          s.jobs, None)
  }

  datatype CancelReply = NotFound | NotRunning | NotCancellable | Cancelling

  /** The position of the first job with this id, as `find_locked` searches. */
  function Find(s: Store, id: string, k: nat): (found: Option<Ref>)
    requires k <= |s.jobs| && forall r :: r in s.jobs ==> r in s.table
    ensures found.Some? ==> found.value in s.jobs && found.value in s.table && s.table[found.value].id == id
    ensures found.None? ==> forall i :: k <= i < |s.jobs| ==> s.table[s.jobs[i]].id != id
    decreases |s.jobs| - k
  {
    if k == |s.jobs| then None
    else if s.table[s.jobs[k]].id == id then Some(s.jobs[k])
    else Find(s, id, k + 1)
  }

  function CancelReplyFor(s: Store, id: string): (reply: CancelReply)
    requires forall r :: r in s.jobs ==> r in s.table
  {
    var found := Find(s, id, 0);
    if found.None? then NotFound else
    var job := s.table[found.value];
    if !Live(job.state) then NotRunning
    else if job.kind == "policy.runtime_switch" || job.kind == "policy.model_activate" then NotCancellable
    else Cancelling
  }

  function Cancel(s: Store, id: string): (s': Store)
    requires forall r :: r in s.jobs ==> r in s.table
  {
    if !CancelReplyFor(s, id).Cancelling? then s else
    var ref := Find(s, id, 0).value;
    s.(table := s.table[ref := s.table[ref].(cancelRequested := true,
                                             reason := "Cancelled by Vehicle Ops operator")])
  }

  /** The locked part of the destructor. */
  function Shutdown(s: Store): (s': Store) {
    if s.active.Some? && s.active.value in s.table && s.table[s.active.value].pid > 0 then
      var ref := s.active.value;
      s.(table := s.table[ref := s.table[ref].(cancelRequested := true, reason := "Vehicle Ops shutdown")])
    else s
  }

  /** Whenever the mutex is free: no active job and nothing live, or exactly one live job, active and newest. */
  ghost predicate SlotInv(s: Store) {
    && |s.jobs| <= HISTORY_LIMIT
    && (forall i, j :: 0 <= i < j < |s.jobs| ==> s.jobs[i] != s.jobs[j])
    && (forall r :: r in s.jobs ==> r in s.table)
    && (s.active.Some? ==> |s.jobs| > 0 && s.jobs[0] == s.active.value)
    && (forall r :: r in s.table ==> (Live(s.table[r].state) <==> s.active == Some(r)))
    && (forall r :: r in s.table && s.table[r].cancelRequested ==> s.table[r].state != "succeeded")
  }

  /** A status file: the id, kind and state it records. */
  datatype Stored = Stored(id: string, kind: string, state: string, reason: string, exitCode: int)

  /** A stored job as it is taken back: one found live has failed. */
  function Restore(stored: Stored): (job: Job)
    ensures !Live(job.state) && job.id == stored.id && job.kind == stored.kind && job.exitCode == stored.exitCode
    ensures job.state == (if stored.state in {"queued", "running"} then "failed" else stored.state)
    ensures stored.state !in {"queued", "running"} ==> job.reason == stored.reason
    ensures job.pid == -1 && !job.cancelRequested
  {
    var job := Job(stored.id, stored.kind, stored.state, stored.reason, -1, stored.exitCode, false);
    if Live(stored.state) then job.(state := "failed", reason := "Vehicle Ops restarted before job completion")
    else job
  }

  /** The jobs among the first `k` directories; `None` is a directory whose status file does not parse. */
  function Parsed(directories: seq<Option<Stored>>, k: nat): (jobs: seq<Job>)
    requires k <= |directories|
  {
    if k == 0 then [] else
    Parsed(directories, k - 1) +
    (if directories[k - 1].Some? then [Restore(directories[k - 1].value)] else [])
  }

  lemma {:induction false} ParsedPrefix(directories: seq<Option<Stored>>, i: nat, k: nat)
    requires i <= k <= |directories|
    ensures Parsed(directories, i) <= Parsed(directories, k)
    decreases k
  {
    if i < k {
      ParsedPrefix(directories, i, k - 1);
    }
  }

  class Manager {
    var table: map<Ref, Job>
    var jobs: seq<Ref>
    var active: Option<Ref>
    var nextRef: Ref

    function View(): (s: Store)
      reads this
    {
      Store(table, jobs, active)
    }

    ghost predicate Valid()
      reads this
    {
      SlotInv(View()) && forall r :: r in table ==> r < nextRef
    }

    /** The constructor's history load keeps, in order, the first fifty directories whose status file parses. */
    constructor (directories: seq<Option<Stored>>)
      ensures Valid() && active.None?
      ensures var parsed := Parsed(directories, |directories|);
              |jobs| == (if |parsed| > HISTORY_LIMIT then HISTORY_LIMIT else |parsed|) &&
              forall i :: 0 <= i < |jobs| ==> table[jobs[i]] == parsed[i]
    {
      table, jobs, active, nextRef := map[], [], None, 0;
      new;
      var i := 0;
      while i < |directories| && |jobs| < HISTORY_LIMIT
        invariant 0 <= i <= |directories| && Valid() && active.None?
        invariant |jobs| == |Parsed(directories, i)|
        invariant forall k :: 0 <= k < |jobs| ==> table[jobs[k]] == Parsed(directories, i)[k]
      {
        if directories[i].Some? {
          Load(directories[i].value);
        }
        i := i + 1;
      }
      ParsedPrefix(directories, i, |directories|);
    }

    /** One loaded job, appended. */
    method Load(stored: Stored)
      requires Valid() && active.None? && |jobs| < HISTORY_LIMIT
      modifies this
      ensures Valid() && active.None? && old(nextRef) !in old(table)
      ensures jobs == old(jobs) + [old(nextRef)] && table == old(table)[old(nextRef) := Restore(stored)]
    {
      var job := Job(stored.id, stored.kind, stored.state, stored.reason, -1, stored.exitCode, false);
      if job.state == "queued" || job.state == "running" {
        job := job.(state := "failed", reason := "Vehicle Ops restarted before job completion");
      }
      assert job == Restore(stored);
      assert forall i :: 0 <= i < |jobs| ==> jobs[i] in jobs;
      table := table[nextRef := job];
      jobs := jobs + [nextRef];
      nextRef := nextRef + 1;
    }

    /** The locked section of `create` after the join; `None` when a job is active. */
    method Create(id: string, kind: string) returns (ref: Option<Ref>)
      requires Valid()
      modifies this
      ensures Valid() && (ref.None? <==> old(active).Some?)
      ensures View() == if ref.Some? then Enqueue(old(View()), ref.value, Queued(id, kind)) else old(View())
      ensures ref.Some? ==> ref.value !in old(table)
    {
      if active.Some? {
        return None;
      }
      var job := Queued(id, kind);
      ref := Some(nextRef);
      jobs := [nextRef] + jobs;
      if |jobs| > HISTORY_LIMIT {
        jobs := jobs[..HISTORY_LIMIT];
      }
      active := Some(nextRef);
      table := table[nextRef := job];
      nextRef := nextRef + 1;
    }

    /** The worker's sections, run for the active job. */
    method WorkerForkFailed()
      requires Valid() && active.Some?
      modifies this
      ensures Valid() && View() == ForkFailed(old(View()), old(active).value)
    {
      var ref := active.value;
      table := table[ref := table[ref].(state := "failed", exitCode := 127)];
      active := None;
    }

    method WorkerStarted(pid: int)
      requires Valid() && active.Some?
      modifies this
      ensures Valid() && View() == Started(old(View()), old(active).value, pid)
    {
      var ref := active.value;
      table := table[ref := table[ref].(pid := pid, state := "running")];
    }

    method WorkerFinished(status: WaitStatus)
      requires Valid() && active.Some?
      modifies this
      ensures Valid() && View() == Finished(old(View()), old(active).value, status)
    {
      var ref := active.value;
      var job := table[ref];
      if job.cancelRequested {
        job := job.(state := "cancelled");
      } else if status == Exited(0) {
        job := job.(state := "succeeded");
      } else {
        job := job.(state := "failed");
      }
      job := job.(exitCode := match status
                              case WaitError => 127
                              case Exited(code) => code
                              case Signalled(signal) => 128 + signal,
                  pid := -1);
      table := table[ref := job];
      active := None;
    }

    method CancelJob(id: string) returns (reply: CancelReply)
      requires Valid()
      modifies this
      ensures Valid() && reply == CancelReplyFor(old(View()), id) && View() == Cancel(old(View()), id)
    {
      var found := Find(View(), id, 0);
      if found.None? {
        return NotFound;
      }
      var job := table[found.value];
      if job.state != "running" && job.state != "queued" {
        return NotRunning;
      }
      if job.kind == "policy.runtime_switch" || job.kind == "policy.model_activate" {
        return NotCancellable;
      }
      job := job.(cancelRequested := true, reason := "Cancelled by Vehicle Ops operator");
      table := table[found.value := job];
      return Cancelling;
    }
  }
}
