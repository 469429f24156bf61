/**
 The worker pool (internal/worker/task_worker_pool.go) behind the scheduler's concurrency
 groups (internal/execution/scheduler.go) as a state machine. Submissions, workers and one
 Shutdown interleave freely; the context of the pool is not cancelled.
 */
module WorkerPools {
  import opened Results
  import opened Sums

  type Id = nat

  /** A task for Run, or, when nobody `waits`, for RunFireAndForget. */
  datatype Job = Job(group: Option<string>, waits: bool)

  datatype Config = Config(jobs: map<Id, Job>, maxWorkers: nat, limits: map<string, int>) {
    /** Schedule always waits for its task, and NewTaskWorkerPool never makes an empty pool. */
    predicate Valid() {
      maxWorkers >= 1 && forall j :: j in jobs && jobs[j].group.Some? ==> jobs[j].waits
    }

    function Capacity(group: string): (n: nat)
      ensures n >= 1
    {
      if group in limits && limits[group] > 1 then limits[group] else 1
    }

    predicate InGroup(j: Id, group: string) {
      j in jobs && jobs[j].group == Some(group)
    }
  }

  /** How far a submission has got. */
  datatype Pc =
    | New
    | Wanting                     // has its group's semaphore, waits for a permit
    | Permitted
    | Passed                      // has seen that the pool is open
    | Enqueuing(timedOut: bool)   // counted as active, sending on the channel
    | Accepted
    | Returning(ok: bool)         // the permit is still to be released
    | Done(ok: bool)
    | Crashed                     // panicked again after recovering

  datatype Worker = Ready | Running(j: Id) | Delivered(j: Id) | Gone

  /** `accepted`, `runs`, `results` and `finished` record what has happened so far. */
  datatype Pool = Pool(
    pc: map<Id, Pc>,
    workers: seq<Worker>,
    queue: seq<Id>,
    active: int,
    closed: bool,
    channelClosed: bool,
    permits: map<string, nat>,
    accepted: set<Id>,
    runs: seq<Id>,
    results: set<Id>,
    finished: set<Id>)

  function Init(c: Config): Pool {
    Pool(map j | j in c.jobs :: New, seq(c.maxWorkers, w => Ready), [], 0, false, false, map[], {}, [], {}, {})
  }

  datatype Step =
    | GroupFor(j: Id)
    | Acquire(j: Id)
    | AcquireFails(j: Id)
    | CheckClosed(j: Id)
    | Add(j: Id)
    | Send(j: Id)
    | SendPanics(j: Id)
    | TimeOut(j: Id)
    | Receive(j: Id)
    | Release(j: Id)
    | Take(w: nat)
    | Deliver(w: nat)
    | Finish(w: nat)
    | Exit(w: nat)
    | SetClosed
    | CloseChannel

  predicate OfWorker(step: Step) {
    step.Take? || step.Deliver? || step.Finish? || step.Exit?
  }

  predicate Enabled(c: Config, s: Pool, step: Step) {
    match step
    case GroupFor(j) => j in s.pc && j in c.jobs && s.pc[j] == New
    case Acquire(j) =>
      j in s.pc && j in c.jobs && s.pc[j] == Wanting && c.jobs[j].group.Some? &&
      var g := c.jobs[j].group.value; g in s.permits && s.permits[g] < c.Capacity(g)
    case AcquireFails(j) => j in s.pc && s.pc[j] == Wanting
    case CheckClosed(j) => j in s.pc && s.pc[j] == Permitted
    case Add(j) => j in s.pc && s.pc[j] == Passed
    case Send(j) => j in s.pc && s.pc[j].Enqueuing? && !s.channelClosed && |s.queue| < c.maxWorkers
    case SendPanics(j) => j in s.pc && s.pc[j].Enqueuing? && s.channelClosed
    case TimeOut(j) => j in s.pc && s.pc[j] == Enqueuing(false)
    case Receive(j) => j in s.pc && j in c.jobs && s.pc[j] == Accepted && (c.jobs[j].waits ==> j in s.results)
    case Release(j) =>
      j in s.pc && j in c.jobs && s.pc[j].Returning? &&
      (c.jobs[j].group.Some? ==> c.jobs[j].group.value in s.permits && s.permits[c.jobs[j].group.value] > 0)
    case Take(w) => w < |s.workers| && s.workers[w] == Ready && s.queue != []
    case Deliver(w) => w < |s.workers| && s.workers[w].Running?
    case Finish(w) => w < |s.workers| && s.workers[w].Delivered?
    case Exit(w) => w < |s.workers| && s.workers[w] == Ready && s.queue == [] && s.channelClosed
    case SetClosed => !s.closed
    case CloseChannel => s.closed && !s.channelClosed
  }

  function Apply(c: Config, s: Pool, step: Step): Pool
    requires Enabled(c, s, step)
  {
    match step
    case GroupFor(j) =>
      if c.jobs[j].group == None then s.(pc := s.pc[j := Permitted])
      else
        var g := c.jobs[j].group.value;
        s.(pc := s.pc[j := Wanting], permits := if g in s.permits then s.permits else s.permits[g := 0])
    case Acquire(j) =>
      var g := c.jobs[j].group.value;
      s.(pc := s.pc[j := Permitted], permits := s.permits[g := s.permits[g] + 1])
    case AcquireFails(j) => s.(pc := s.pc[j := Done(false)])
    case CheckClosed(j) => s.(pc := s.pc[j := if s.closed then Returning(false) else Passed])
    case Add(j) => s.(pc := s.pc[j := Enqueuing(false)], active := s.active + 1)
    case Send(j) => s.(pc := s.pc[j := Accepted], queue := s.queue + [j], accepted := s.accepted + {j})
    case SendPanics(j) =>
      s.(pc := s.pc[j := if s.closed then Returning(false) else Crashed], active := s.active - 1)
    case TimeOut(j) =>
      if s.closed then s.(pc := s.pc[j := Returning(false)], active := s.active - 1)
      else s.(pc := s.pc[j := Enqueuing(true)])
    case Receive(j) => s.(pc := s.pc[j := Returning(true)])
    case Release(j) =>
      var freed := s.(pc := s.pc[j := Done(s.pc[j].ok)]);
      if c.jobs[j].group == None then freed
      else
        var g := c.jobs[j].group.value;
        freed.(permits := s.permits[g := s.permits[g] - 1])
    case Take(w) =>
      s.(workers := s.workers[w := Running(s.queue[0])], queue := s.queue[1..], runs := s.runs + [s.queue[0]])
    case Deliver(w) => s.(workers := s.workers[w := Delivered(s.workers[w].j)], results := s.results + {s.workers[w].j})
    case Finish(w) =>
      s.(workers := s.workers[w := Ready], finished := s.finished + {s.workers[w].j}, active := s.active - 1)
    case Exit(w) => s.(workers := s.workers[w := Gone])
    case SetClosed => s.(closed := true)
    case CloseChannel => s.(channelClosed := true)
  }

  ghost predicate Taken(c: Config, s: Pool, step: Step, s': Pool) {
    Enabled(c, s, step) && s' == Apply(c, s, step)
  }

  // The invariant -------------------------------------------------------------------------

  predicate IsAccepted(p: Pc) {
    p == Accepted || p == Returning(true) || p == Done(true)
  }

  predicate HasPermit(p: Pc) {
    p == Permitted || p == Passed || p.Enqueuing? || p == Accepted || p.Returning?
  }

  predicate HasJob(w: Worker, j: Id) {
    (w.Running? || w.Delivered?) && w.j == j
  }

  /** An enqueue in progress, or an accepted job that is not finished. */
  predicate IsActive(s: Pool, j: Id) {
    j in s.pc && (s.pc[j].Enqueuing? || (j in s.accepted && j !in s.finished))
  }

  function ActiveJobs(s: Pool): set<Id> {
    set j | j in s.pc && IsActive(s, j)
  }

  predicate Holds(c: Config, s: Pool, group: string, j: Id) {
    j in s.pc && HasPermit(s.pc[j]) && c.InGroup(j, group)
  }

  function Holders(c: Config, s: Pool, group: string): set<Id> {
    set j | j in s.pc && Holds(c, s, group, j)
  }

  ghost predicate NoRepeats(js: seq<Id>) {
    forall i, k :: 0 <= i < k < |js| ==> js[i] != js[k]
  }

  /** Where a job is: not accepted, in the queue, with one worker, or finished. */
  ghost predicate JobInv(c: Config, s: Pool, j: Id) {
    && j in s.pc && j in c.jobs && s.pc[j] != Crashed
    && (j in s.accepted <==> IsAccepted(s.pc[j]))
    && (j in s.accepted <==> j in s.queue || j in s.runs)
    && !(j in s.queue && j in s.runs)
    && (j in s.finished ==> j in s.runs && j in s.results)
    && (s.pc[j] == Wanting ==> c.jobs[j].group.Some?)
    && (j in s.runs && j !in s.finished ==> exists w: nat :: w < |s.workers| && HasJob(s.workers[w], j))
    && (c.jobs[j].waits && IsAccepted(s.pc[j]) && s.pc[j] != Accepted ==> j in s.results)
    && (c.jobs[j].group.Some? && (s.pc[j] == Wanting || HasPermit(s.pc[j])) ==> c.jobs[j].group.value in s.permits)
  }

  ghost predicate WorkerInv(s: Pool, w: nat) {
    && w < |s.workers|
    && (s.workers[w].Running? || s.workers[w].Delivered? ==>
        s.workers[w].j in s.pc && s.workers[w].j in s.runs && s.workers[w].j !in s.finished)
    && (s.workers[w].Running? ==> s.workers[w].j !in s.results)
    && (s.workers[w].Delivered? ==> s.workers[w].j in s.results)
    && (s.workers[w] == Gone ==> s.queue == [] && s.channelClosed)
  }

  ghost predicate JobsInv(c: Config, s: Pool) {
    && s.pc.Keys == c.jobs.Keys && NoRepeats(s.queue) && NoRepeats(s.runs)
    && (forall j :: j in s.queue || j in s.runs || j in s.accepted ==> j in s.pc)
    && (forall j :: j in s.results ==> j in s.runs)
    && forall j {:trigger JobInv(c, s, j)} :: j in s.pc ==> JobInv(c, s, j)
  }

  ghost predicate WorkersInv(c: Config, s: Pool) {
    && |s.workers| == c.maxWorkers
    && (forall w: nat {:trigger WorkerInv(s, w)} :: w < |s.workers| ==> WorkerInv(s, w))
    && forall v: nat, w: nat, j ::
         v < |s.workers| && w < |s.workers| && HasJob(s.workers[v], j) && HasJob(s.workers[w], j) ==> v == w
  }

  ghost predicate GroupInv(c: Config, s: Pool, group: string) {
    group in s.permits && s.permits[group] == |Holders(c, s, group)| <= c.Capacity(group)
  }

  ghost predicate GroupsInv(c: Config, s: Pool) {
    forall g {:trigger GroupInv(c, s, g)} :: g in s.permits ==> GroupInv(c, s, g)
  }

  ghost predicate Inv(c: Config, s: Pool) {
    && JobsInv(c, s) && WorkersInv(c, s) && GroupsInv(c, s)
    && s.active == |ActiveJobs(s)|
    && (s.channelClosed ==> s.closed)
  }

  // Keeping it ----------------------------------------------------------------------------

  /** Only the submission of `j` moves; the pool's other records stay. */
  ghost predicate OnlyMoves(s: Pool, s': Pool, j: Id) {
    && j in s.pc && j in s'.pc
    && s' == s.(pc := s.pc[j := s'.pc[j]], active := s'.active, permits := s'.permits)
    && s.permits.Keys <= s'.permits.Keys
  }

  lemma JobsStay(c: Config, s: Pool, s': Pool, j: Id)
    requires JobsInv(c, s) && OnlyMoves(s, s', j) && JobInv(c, s', j)
    ensures JobsInv(c, s')
  {
    forall k | k in s'.pc ensures JobInv(c, s', k) {
      assert JobInv(c, s, k);
    }
  }

  lemma WorkersStay(c: Config, s: Pool, s': Pool)
    requires WorkersInv(c, s) && s'.workers == s.workers && s'.queue == s.queue && s'.runs == s.runs
    requires s'.finished == s.finished
    requires s'.results == s.results && s.pc.Keys <= s'.pc.Keys && (s.channelClosed ==> s'.channelClosed)
    ensures WorkersInv(c, s')
  {
    forall w: nat | w < |s'.workers| ensures WorkerInv(s', w) {
      assert WorkerInv(s, w);
    }
  }

  lemma SizeMoves(a: set<Id>, b: set<Id>, j: Id)
    requires forall k :: k != j ==> (k in a <==> k in b)
    ensures |b| == |a| + (if j in b then 1 else 0) - (if j in a then 1 else 0)
  {
    if j in a && j !in b {
      assert a == b + {j};
    } else if j !in a && j in b {
      assert b == a + {j};
    } else {
      assert a == b;
    }
  }

  /** The counter follows the set it counts. */
  lemma ActiveMoves(s: Pool, s': Pool, j: Id)
    requires s.active == |ActiveJobs(s)|
    requires forall k :: k != j ==> (IsActive(s, k) <==> IsActive(s', k))
    requires s'.active == s.active + (if IsActive(s', j) then 1 else 0) - (if IsActive(s, j) then 1 else 0)
    ensures s'.active == |ActiveJobs(s')|
  {
    forall k | k != j ensures k in ActiveJobs(s) <==> k in ActiveJobs(s') {
      assert IsActive(s, k) <==> IsActive(s', k);
    }
    SizeMoves(ActiveJobs(s), ActiveJobs(s'), j);
  }

  function Was(s: Pool, group: string): int {
    if group in s.permits then s.permits[group] else 0
  }

  /** The permits of a group follow its holders, of which only `j` may change. */
  ghost predicate PermitMoves(c: Config, s: Pool, s': Pool, j: Id, group: string) {
    && group in s'.permits && s'.permits[group] <= c.Capacity(group)
    && (group !in s.permits ==> Holders(c, s, group) == {})
    && Was(s', group) ==
       Was(s, group) + (if Holds(c, s', group, j) then 1 else 0) - (if Holds(c, s, group, j) then 1 else 0)
  }

  lemma HoldersMove(c: Config, s: Pool, s': Pool, j: Id, group: string)
    requires j in s.pc && j in s'.pc && s'.pc == s.pc[j := s'.pc[j]]
    requires PermitMoves(c, s, s', j, group) && (group in s.permits ==> GroupInv(c, s, group))
    ensures GroupInv(c, s', group)
  {
    var before, after := Holders(c, s, group), Holders(c, s', group);
    forall k | k != j ensures k in before <==> k in after {
      assert Holds(c, s, group, k) <==> Holds(c, s', group, k);
    }
    SizeMoves(before, after, j);
  }

  /** A step of one submission keeps the invariant if that submission's parts are right. */
  lemma SubmissionMoves(c: Config, s: Pool, s': Pool, j: Id)
    requires Inv(c, s) && OnlyMoves(s, s', j) && JobInv(c, s', j)
    requires s'.active == s.active + (if IsActive(s', j) then 1 else 0) - (if IsActive(s, j) then 1 else 0)
    requires forall g {:trigger PermitMoves(c, s, s', j, g)} :: g in s'.permits ==> PermitMoves(c, s, s', j, g)
    ensures Inv(c, s')
  {
    JobsStay(c, s, s', j);
    WorkersStay(c, s, s');
    ActiveMoves(s, s', j);
    forall g | g in s'.permits ensures GroupInv(c, s', g) {
      assert PermitMoves(c, s, s', j, g) && (g in s.permits ==> GroupInv(c, s, g));
      HoldersMove(c, s, s', j, g);
    }
  }

  /** Permits stay when no submission gains or loses one. */
  lemma PermitsStay(c: Config, s: Pool, s': Pool)
    requires GroupsInv(c, s) && s'.permits == s.permits
    requires forall k :: k in s.pc <==> k in s'.pc
    requires forall k :: k in s.pc ==> (HasPermit(s'.pc[k]) <==> HasPermit(s.pc[k]))
    ensures GroupsInv(c, s')
  {
    forall g | g in s'.permits ensures GroupInv(c, s', g) {
      assert GroupInv(c, s, g);
      assert Holders(c, s', g) == Holders(c, s, g);
    }
  }

  lemma GroupForKeeps(c: Config, s: Pool, j: Id, s': Pool)
    requires c.Valid() && Inv(c, s) && Taken(c, s, GroupFor(j), s')
    ensures Inv(c, s')
  {
    assert JobInv(c, s, j);
    forall g | g in s'.permits ensures PermitMoves(c, s, s', j, g) {
      if g in s.permits {
        assert GroupInv(c, s, g);
      } else {
        NoHolders(c, s, g);
      }
    }
    SubmissionMoves(c, s, s', j);
  }

  /** Nobody holds a permit of a semaphore that does not exist. */
  lemma NoHolders(c: Config, s: Pool, g: string)
    requires JobsInv(c, s) && g !in s.permits
    ensures Holders(c, s, g) == {}
  {
    forall k | k in s.pc ensures !Holds(c, s, g, k) {
      assert JobInv(c, s, k);
    }
  }

  lemma AcquireKeeps(c: Config, s: Pool, j: Id, s': Pool)
    requires c.Valid() && Inv(c, s) && Taken(c, s, Acquire(j), s')
    ensures Inv(c, s')
  {
    assert JobInv(c, s, j);
    forall g | g in s'.permits ensures PermitMoves(c, s, s', j, g) {
      assert GroupInv(c, s, g);
    }
    SubmissionMoves(c, s, s', j);
  }

  lemma ReleaseKeeps(c: Config, s: Pool, j: Id, s': Pool)
    requires c.Valid() && Inv(c, s) && Taken(c, s, Release(j), s')
    ensures Inv(c, s')
  {
    assert JobInv(c, s, j);
    forall g | g in s'.permits ensures PermitMoves(c, s, s', j, g) {
      assert GroupInv(c, s, g);
    }
    SubmissionMoves(c, s, s', j);
  }

  lemma AcquireFailsKeeps(c: Config, s: Pool, j: Id, s': Pool)
    requires c.Valid() && Inv(c, s) && Taken(c, s, AcquireFails(j), s')
    ensures Inv(c, s')
  {
    assert JobInv(c, s, j);
    forall g | g in s'.permits ensures PermitMoves(c, s, s', j, g) {
      assert GroupInv(c, s, g);
    }
    SubmissionMoves(c, s, s', j);
  }

  lemma CheckClosedKeeps(c: Config, s: Pool, j: Id, s': Pool)
    requires c.Valid() && Inv(c, s) && Taken(c, s, CheckClosed(j), s')
    ensures Inv(c, s')
  {
    assert JobInv(c, s, j);
    forall g | g in s'.permits ensures PermitMoves(c, s, s', j, g) {
      assert GroupInv(c, s, g);
    }
    SubmissionMoves(c, s, s', j);
  }

  lemma AddKeeps(c: Config, s: Pool, j: Id, s': Pool)
    requires c.Valid() && Inv(c, s) && Taken(c, s, Add(j), s')
    ensures Inv(c, s')
  {
    assert JobInv(c, s, j);
    forall g | g in s'.permits ensures PermitMoves(c, s, s', j, g) {
      assert GroupInv(c, s, g);
    }
    SubmissionMoves(c, s, s', j);
  }

  lemma SendPanicsKeeps(c: Config, s: Pool, j: Id, s': Pool)
    requires c.Valid() && Inv(c, s) && Taken(c, s, SendPanics(j), s')
    ensures Inv(c, s')
  {
    assert JobInv(c, s, j);
    forall g | g in s'.permits ensures PermitMoves(c, s, s', j, g) {
      assert GroupInv(c, s, g);
    }
    SubmissionMoves(c, s, s', j);
  }

  lemma TimeOutKeeps(c: Config, s: Pool, j: Id, s': Pool)
    requires c.Valid() && Inv(c, s) && Taken(c, s, TimeOut(j), s')
    ensures Inv(c, s')
  {
    assert JobInv(c, s, j);
    forall g | g in s'.permits ensures PermitMoves(c, s, s', j, g) {
      assert GroupInv(c, s, g);
    }
    SubmissionMoves(c, s, s', j);
  }

  lemma ReceiveKeeps(c: Config, s: Pool, j: Id, s': Pool)
    requires c.Valid() && Inv(c, s) && Taken(c, s, Receive(j), s')
    ensures Inv(c, s')
  {
    assert JobInv(c, s, j);
    forall g | g in s'.permits ensures PermitMoves(c, s, s', j, g) {
      assert GroupInv(c, s, g);
    }
    SubmissionMoves(c, s, s', j);
  }

  lemma SendKeeps(c: Config, s: Pool, j: Id, s': Pool)
    requires c.Valid() && Inv(c, s) && Taken(c, s, Send(j), s')
    ensures Inv(c, s')
  {
    SendJobs(c, s, j, s');
    forall w: nat | w < |s'.workers| ensures WorkerInv(s', w) {
      assert WorkerInv(s, w);
    }
    ActiveMoves(s, s', j);
    PermitsStay(c, s, s');
  }

  lemma SendJobs(c: Config, s: Pool, j: Id, s': Pool)
    requires JobsInv(c, s) && Taken(c, s, Send(j), s')
    ensures JobsInv(c, s') && j !in s.finished && j !in s.accepted
  {
    assert JobInv(c, s, j);
    forall k | k in s'.pc ensures JobInv(c, s', k) {
      assert JobInv(c, s, k);
      if k != j && k in s.runs && k !in s.finished {
        var w: nat :| w < |s.workers| && HasJob(s.workers[w], k);
        assert HasJob(s'.workers[w], k);
      }
    }
  }

  lemma TakeKeeps(c: Config, s: Pool, w: nat, s': Pool)
    requires c.Valid() && Inv(c, s) && Taken(c, s, Take(w), s')
    ensures Inv(c, s')
  {
    var j := s.queue[0];
    TakeJobs(c, s, w, s');
    TakeWorkers(c, s, w, s');
    assert ActiveJobs(s') == ActiveJobs(s);
    PermitsStay(c, s, s');
  }

  lemma TakeJobs(c: Config, s: Pool, w: nat, s': Pool)
    requires JobsInv(c, s) && Taken(c, s, Take(w), s')
    ensures JobsInv(c, s')
  {
    var j := s.queue[0];
    assert JobInv(c, s, j) && HasJob(s'.workers[w], j);
    forall k | k in s'.pc ensures JobInv(c, s', k) {
      assert JobInv(c, s, k);
      assert k in s.queue <==> k == j || k in s'.queue;
      HolderStays(s, s', k, w, j);
    }
  }

  lemma TakeWorkers(c: Config, s: Pool, w: nat, s': Pool)
    requires JobsInv(c, s) && WorkersInv(c, s) && Taken(c, s, Take(w), s')
    ensures WorkersInv(c, s')
  {
    var j := s.queue[0];
    assert JobInv(c, s, j);
    forall v: nat | v < |s'.workers| ensures WorkerInv(s', v) && (v != w ==> !HasJob(s'.workers[v], j)) {
      assert WorkerInv(s, v);
    }
  }

  /** A job other than the one worker `w` deals with stays with its worker. */
  lemma HolderStays(s: Pool, s': Pool, k: Id, w: nat, j: Id)
    requires w < |s.workers| == |s'.workers| && s'.workers == s.workers[w := s'.workers[w]]
    requires forall x :: HasJob(s.workers[w], x) ==> x == j
    requires k != j && k in s.runs && k !in s.finished ==> exists v: nat :: v < |s.workers| && HasJob(s.workers[v], k)
    ensures k != j && k in s.runs && k !in s.finished ==> exists v: nat :: v < |s'.workers| && HasJob(s'.workers[v], k)
  {
    if k != j && k in s.runs && k !in s.finished {
      var v: nat :| v < |s.workers| && HasJob(s.workers[v], k);
      assert v != w && HasJob(s'.workers[v], k);
    }
  }

  lemma DeliverKeeps(c: Config, s: Pool, w: nat, s': Pool)
    requires c.Valid() && Inv(c, s) && Taken(c, s, Deliver(w), s')
    ensures Inv(c, s')
  {
    var j := s.workers[w].j;
    assert WorkerInv(s, w) && HasJob(s.workers[w], j) && HasJob(s'.workers[w], j);
    forall k | k in s'.pc ensures JobInv(c, s', k) {
      assert JobInv(c, s, k);
      HolderStays(s, s', k, w, j);
    }
    forall v: nat | v < |s'.workers| ensures WorkerInv(s', v) {
      assert WorkerInv(s, v);
      assert v != w && s.workers[v].Running? ==> HasJob(s.workers[v], s.workers[v].j);
    }
    ActiveMoves(s, s', j);
    PermitsStay(c, s, s');
  }

  lemma FinishKeeps(c: Config, s: Pool, w: nat, s': Pool)
    requires c.Valid() && Inv(c, s) && Taken(c, s, Finish(w), s')
    ensures Inv(c, s')
  {
    var j := s.workers[w].j;
    assert WorkerInv(s, w) && HasJob(s.workers[w], j) && JobInv(c, s, j);
    forall k | k in s'.pc ensures JobInv(c, s', k) {
      assert JobInv(c, s, k);
      HolderStays(s, s', k, w, j);
    }
    forall v: nat | v < |s'.workers| ensures WorkerInv(s', v) {
      assert WorkerInv(s, v);
      assert v != w && (s.workers[v].Running? || s.workers[v].Delivered?) ==> HasJob(s.workers[v], s.workers[v].j);
    }
    ActiveMoves(s, s', j);
    PermitsStay(c, s, s');
  }

  lemma ShutdownKeeps(c: Config, s: Pool, step: Step, s': Pool)
    requires c.Valid() && Inv(c, s) && Taken(c, s, step, s') && (step.Exit? || step.SetClosed? || step.CloseChannel?)
    ensures Inv(c, s')
  {
    forall k | k in s'.pc ensures JobInv(c, s', k) {
      assert JobInv(c, s, k);
      if k in s.runs && k !in s.finished {
        var v: nat :| v < |s.workers| && HasJob(s.workers[v], k);
        assert HasJob(s'.workers[v], k);
      }
    }
    forall v: nat | v < |s'.workers| ensures WorkerInv(s', v) {
      assert WorkerInv(s, v);
    }
    assert ActiveJobs(s') == ActiveJobs(s);
    PermitsStay(c, s, s');
  }

  lemma StepKeeps(c: Config, s: Pool, step: Step, s': Pool)
    requires c.Valid() && Inv(c, s) && Taken(c, s, step, s')
    ensures Inv(c, s')
  {
    match step
    case GroupFor(j) => GroupForKeeps(c, s, j, s');
    case Acquire(j) => AcquireKeeps(c, s, j, s');
    case AcquireFails(j) => AcquireFailsKeeps(c, s, j, s');
    case CheckClosed(j) => CheckClosedKeeps(c, s, j, s');
    case Add(j) => AddKeeps(c, s, j, s');
    case Send(j) => SendKeeps(c, s, j, s');
    case SendPanics(j) => SendPanicsKeeps(c, s, j, s');
    case TimeOut(j) => TimeOutKeeps(c, s, j, s');
    case Receive(j) => ReceiveKeeps(c, s, j, s');
    case Release(j) => ReleaseKeeps(c, s, j, s');
    case Take(w) => TakeKeeps(c, s, w, s');
    case Deliver(w) => DeliverKeeps(c, s, w, s');
    case Finish(w) => FinishKeeps(c, s, w, s');
    case _ => ShutdownKeeps(c, s, step, s');
  }

  lemma InitInv(c: Config)
    requires c.Valid()
    ensures Inv(c, Init(c))
  {
    var s := Init(c);
    assert ActiveJobs(s) == {};
    forall j | j in s.pc ensures JobInv(c, s, j) {
    }
  }

  // Runs ----------------------------------------------------------------------------------

  ghost predicate Next(c: Config, s: Pool, s': Pool) {
    exists step :: Taken(c, s, step, s')
  }

  ghost predicate StepTaken(c: Config, run: seq<Pool>, i: int) {
    0 <= i < |run| - 1 ==> Next(c, run[i], run[i + 1])
  }

  ghost predicate IsRun(c: Config, run: seq<Pool>) {
    |run| >= 1 && run[0] == Init(c) && forall i :: StepTaken(c, run, i)
  }

  lemma {:induction false} RunInv(c: Config, run: seq<Pool>, i: nat)
    requires c.Valid() && IsRun(c, run) && i < |run|
    ensures Inv(c, run[i])
  {
    if i == 0 {
      InitInv(c);
    } else {
      RunInv(c, run, i - 1);
      assert StepTaken(c, run, i - 1);
      var step :| Taken(c, run[i - 1], step, run[i]);
      StepKeeps(c, run[i - 1], step, run[i]);
    }
  }

  /**
   In every interleaving with Shutdown: a job runs at most once; a submission that succeeds
   was accepted, its job has been queued or started, and with Run it has delivered its
   result; a submission that fails never runs; recovering never panics again; and the
   active-jobs counter is the number of enqueues in progress plus that of accepted jobs
   that are not finished.
   */
  lemma JobsConserved(c: Config, run: seq<Pool>, i: nat, j: Id)
    requires c.Valid() && IsRun(c, run) && i < |run| && j in c.jobs
    ensures NoRepeats(run[i].queue + run[i].runs)
    ensures j in run[i].pc && run[i].pc[j] != Crashed
    ensures run[i].pc[j] in {Accepted, Returning(true), Done(true)} <==> j in run[i].queue || j in run[i].runs
    ensures run[i].pc[j] in {Returning(true), Done(true)} && c.jobs[j].waits ==> j in run[i].results
    ensures run[i].active == |ActiveJobs(run[i])|
  {
    var s := run[i];
    RunInv(c, run, i);
    assert JobInv(c, s, j);
    var all := s.queue + s.runs;
    forall x, y | 0 <= x < y < |all| ensures all[x] != all[y] {
      if x < |s.queue| <= y {
        assert JobInv(c, s, s.queue[x]) && all[x] in s.queue && all[y] in s.runs;
      }
    }
  }

  /** Step `i` of the run is `step`. */
  ghost predicate StepAt(c: Config, run: seq<Pool>, i: int, step: Step) {
    0 <= i < |run| - 1 && Taken(c, run[i], step, run[i + 1])
  }

  predicate Failing(p: Pc) {
    p == Returning(false) || p == Done(false)
  }

  /** The permit is not granted, or the pool is found closed before the job is in the queue. */
  predicate Rejects(s: Pool, step: Step, j: Id) {
    || step == AcquireFails(j)
    || (s.closed && (step == CheckClosed(j) || step == TimeOut(j) || step == SendPanics(j)))
  }

  ghost predicate RejectedAt(c: Config, run: seq<Pool>, i: int, step: Step, j: Id) {
    StepAt(c, run, i, step) && Rejects(run[i], step, j)
  }

  lemma FailingStep(c: Config, s: Pool, step: Step, s': Pool, j: Id)
    requires Taken(c, s, step, s') && j in s.pc && j in s'.pc && (s.channelClosed ==> s.closed)
    ensures Failing(s'.pc[j]) <==> Failing(s.pc[j]) || Rejects(s, step, j)
  {
  }

  lemma FailingNext(c: Config, run: seq<Pool>, i: nat, step: Step, j: Id)
    requires c.Valid() && IsRun(c, run) && StepAt(c, run, i, step) && j in c.jobs
    ensures j in run[i].pc && j in run[i + 1].pc
    ensures Failing(run[i + 1].pc[j]) <==> Failing(run[i].pc[j]) || Rejects(run[i], step, j)
  {
    RunInv(c, run, i);
    RunInv(c, run, i + 1);
    FailingStep(c, run[i], step, run[i + 1], j);
  }

  lemma StepBefore(c: Config, run: seq<Pool>, i: nat) returns (k: nat, step: Step)
    requires IsRun(c, run) && 0 < i < |run|
    ensures k == i - 1 && StepAt(c, run, k, step)
  {
    k := i - 1;
    assert StepTaken(c, run, k);
    step :| Taken(c, run[k], step, run[i]);
  }

  lemma {:induction false} RejectedBy(c: Config, run: seq<Pool>, i: nat, j: Id) returns (k: nat, step: Step)
    requires c.Valid() && IsRun(c, run) && i < |run| && j in c.jobs && j in run[i].pc && Failing(run[i].pc[j])
    ensures k < i && RejectedAt(c, run, k, step, j)
  {
    k, step := StepBefore(c, run, i);
    FailingNext(c, run, k, step, j);
    if !Rejects(run[k], step, j) {
      k, step := RejectedBy(c, run, k, j);
    }
  }

  lemma {:induction false} FailureStays(c: Config, run: seq<Pool>, k: nat, i: nat, j: Id)
    requires c.Valid() && IsRun(c, run) && k <= i < |run| && j in c.jobs && j in run[k].pc && Failing(run[k].pc[j])
    ensures j in run[i].pc && Failing(run[i].pc[j])
  {
    if k < i {
      FailureStays(c, run, k, i - 1, j);
      var last, step := StepBefore(c, run, i);
      FailingNext(c, run, last, step, j);
    }
  }

  /**
   A submission fails exactly when its Acquire gave up, or when it found the pool closed at
   its check, after its time-out, or when sending panicked.
   */
  lemma RejectedForCause(c: Config, run: seq<Pool>, i: nat, j: Id)
    requires c.Valid() && IsRun(c, run) && i < |run| && j in c.jobs
    ensures j in run[i].pc
    ensures Failing(run[i].pc[j]) <==> exists k, step :: 0 <= k < i && RejectedAt(c, run, k, step, j)
  {
    RunInv(c, run, i);
    if Failing(run[i].pc[j]) {
      var k, step := RejectedBy(c, run, i, j);
    }
    forall k, step | 0 <= k < i && RejectedAt(c, run, k, step, j) ensures Failing(run[i].pc[j]) {
      FailingNext(c, run, k, step, j);
      FailureStays(c, run, k + 1, i, j);
    }
  }

  /** All jobs accepted so far, those that have been started first. */
  function Order(s: Pool): seq<Id> {
    s.runs + s.queue
  }

  lemma OrderStep(c: Config, s: Pool, step: Step, s': Pool)
    requires Taken(c, s, step, s')
    ensures Order(s) <= Order(s')
  {
  }

  /** Jobs are started in the order in which they were accepted. */
  lemma {:induction false} StartedInOrder(c: Config, run: seq<Pool>, i: nat, k: nat)
    requires IsRun(c, run) && i <= k < |run|
    ensures Order(run[i]) <= Order(run[k])
  {
    if i < k {
      StartedInOrder(c, run, i, k - 1);
      var last, step := StepBefore(c, run, k);
      OrderStep(c, run[last], step, run[k]);
    }
  }

  /** The jobs that workers execute at the moment. */
  function RunningJobs(workers: seq<Worker>): (js: set<Id>)
    ensures |js| <= |workers|
  {
    if workers == [] then {}
    else
      var last := workers[|workers| - 1];
      RunningJobs(workers[..|workers| - 1]) + if last.Running? then {last.j} else {}
  }

  lemma {:induction false} RunningMember(workers: seq<Worker>, j: Id)
    ensures j in RunningJobs(workers) <==> exists w: nat :: w < |workers| && workers[w] == Running(j)
  {
    if workers != [] {
      var front := workers[..|workers| - 1];
      RunningMember(front, j);
      if w: nat :| w < |workers| && workers[w] == Running(j) {
        assert w < |front| ==> front[w] == Running(j);
      }
      if w: nat :| w < |front| && front[w] == Running(j) {
        assert workers[w] == Running(j);
      }
    }
  }

  /**
   In every interleaving at most maxWorkers tasks run, and of one concurrency group at most
   as many as its capacity; the permits in use are those of the submissions between Acquire
   and Release.
   */
  lemma LimitsKept(c: Config, run: seq<Pool>, i: nat, group: string)
    requires c.Valid() && IsRun(c, run) && i < |run|
    ensures |RunningJobs(run[i].workers)| <= c.maxWorkers
    ensures |set j | j in RunningJobs(run[i].workers) && c.InGroup(j, group)| <= c.Capacity(group)
    ensures group in run[i].permits ==> run[i].permits[group] == |Holders(c, run[i], group)| <= c.Capacity(group)
    ensures c.Capacity(group) == if group in c.limits && c.limits[group] > 0 then c.limits[group] else 1
  {
    var s := run[i];
    RunInv(c, run, i);
    var inGroup := set j | j in RunningJobs(s.workers) && c.InGroup(j, group);
    forall j | j in inGroup ensures j in Holders(c, s, group) && group in s.permits {
      RunningMember(s.workers, j);
      var w: nat :| w < |s.workers| && s.workers[w] == Running(j);
      assert WorkerInv(s, w) && JobInv(c, s, j);
    }
    if group in s.permits {
      assert GroupInv(c, s, group);
    } else {
      NoHolders(c, s, group);
    }
    SubsetSize(inGroup, Holders(c, s, group));
  }

  /** A permit is refused to nobody while fewer than the limit of the group are in use. */
  lemma PermitFree(c: Config, run: seq<Pool>, i: nat, j: Id, group: string)
    requires c.Valid() && IsRun(c, run) && i < |run| && c.InGroup(j, group)
    requires j in run[i].pc && run[i].pc[j] == Wanting && |Holders(c, run[i], group)| < c.Capacity(group)
    ensures Enabled(c, run[i], Acquire(j))
  {
    RunInv(c, run, i);
    assert JobInv(c, run[i], j) && GroupInv(c, run[i], group);
  }

  lemma {:induction false} SubsetSize(a: set<Id>, b: set<Id>)
    requires a <= b
    ensures |a| <= |b|
    decreases |a|
  {
    if a != {} {
      var x :| x in a;
      SubsetSize(a - {x}, b - {x});
    }
  }

  // Every run comes to an end ---------------------------------------------------------------

  /** While an accepted job is not finished some worker can move. */
  lemma WorkerMoves(c: Config, s: Pool, j: Id) returns (step: Step)
    requires c.Valid() && Inv(c, s) && j in s.accepted && j !in s.finished
    ensures Enabled(c, s, step) && OfWorker(step)
  {
    assert JobInv(c, s, j);
    var w: nat := 0;
    if j in s.runs {
      w :| w < |s.workers| && HasJob(s.workers[w], j);
    }
    assert WorkerInv(s, w);
    match s.workers[w]
    case Running(_) => step := Deliver(w);
    case Delivered(_) => step := Finish(w);
    case _ => step := Take(w);
  }

  function Weight(w: Worker): nat {
    match w
    case Running(_) => 3
    case Delivered(_) => 2
    case Ready => 1
    case Gone => 0
  }

  function Total(workers: seq<Worker>): nat {
    if workers == [] then 0 else Weight(workers[0]) + Total(workers[1..])
  }

  function WorkLeft(s: Pool): nat {
    4 * |s.queue| + Total(s.workers)
  }

  lemma {:induction false} TotalUpdate(workers: seq<Worker>, w: nat, worker: Worker)
    requires w < |workers|
    ensures Total(workers[w := worker]) == Total(workers) - Weight(workers[w]) + Weight(worker)
  {
    var updated := workers[w := worker];
    if w == 0 {
      assert updated[1..] == workers[1..];
    } else {
      assert updated[1..] == workers[1..][w - 1 := worker];
      TotalUpdate(workers[1..], w - 1, worker);
    }
  }

  lemma WorkGetsLess(c: Config, s: Pool, step: Step, s': Pool)
    requires Taken(c, s, step, s')
    ensures OfWorker(step) ==> WorkLeft(s') < WorkLeft(s)
    ensures !OfWorker(step) ==> WorkLeft(s') == WorkLeft(s) + if step.Send? then 4 else 0
  {
    if OfWorker(step) {
      TotalUpdate(s.workers, step.w, s'.workers[step.w]);
    } else {
      assert s'.workers == s.workers;
    }
  }

  /** The steps that a submission can still cause: its own, and those of workers once its job is sent. */
  function Rank(p: Pc): nat {
    match p
    case New => 12
    case Wanting => 11
    case Permitted => 10
    case Passed => 9
    case Enqueuing(timedOut) => if timedOut then 7 else 8
    case Accepted => 2
    case Returning(_) => 1
    case _ => 0
  }

  function Ranks(s: Pool): map<Id, nat> {
    map j | j in s.pc :: Rank(s.pc[j])
  }

  ghost function StepsLeft(s: Pool): nat {
    Sum(Ranks(s)) + WorkLeft(s) + (if s.closed then 0 else 1) + (if s.channelClosed then 0 else 1)
  }

  lemma RanksDrop(s: Pool, s': Pool, j: Id, drop: nat)
    requires j in s.pc && j in s'.pc && s'.pc == s.pc[j := s'.pc[j]]
    requires Rank(s'.pc[j]) + drop <= Rank(s.pc[j])
    ensures Sum(Ranks(s')) + drop <= Sum(Ranks(s))
  {
    SumDrops(Ranks(s'), Ranks(s), j, drop);
  }

  lemma StepsDrop(c: Config, s: Pool, step: Step, s': Pool)
    requires Taken(c, s, step, s')
    ensures StepsLeft(s') < StepsLeft(s)
  {
    WorkGetsLess(c, s, step, s');
    if OfWorker(step) || step.SetClosed? || step.CloseChannel? {
      assert s'.pc == s.pc;
    } else {
      RanksDrop(s, s', step.j, if step.Send? then 5 else 1);
    }
  }

  lemma {:induction false} StepsBounded(c: Config, run: seq<Pool>, i: nat)
    requires i < |run| && forall k :: StepTaken(c, run, k)
    ensures i + StepsLeft(run[i]) <= StepsLeft(run[0])
  {
    if i > 0 {
      StepsBounded(c, run, i - 1);
      assert StepTaken(c, run, i - 1);
      var step :| Taken(c, run[i - 1], step, run[i]);
      StepsDrop(c, run[i - 1], step, run[i]);
    }
  }

  /** Nothing can move but an Acquire that gives up and a Shutdown. */
  ghost predicate Idle(c: Config, s: Pool) {
    forall step: Step :: Enabled(c, s, step) ==> step.AcquireFails? || step.SetClosed? || step.CloseChannel?
  }

  lemma IdleWorkers(c: Config, s: Pool)
    requires c.Valid() && Inv(c, s) && Idle(c, s)
    ensures s.queue == [] && s.accepted <= s.finished
  {
    if s.queue != [] {
      assert JobInv(c, s, s.queue[0]);
      var step := WorkerMoves(c, s, s.queue[0]);
      assert false;
    }
    forall j | j in s.accepted ensures j in s.finished {
      if j !in s.finished {
        var step := WorkerMoves(c, s, j);
        assert false;
      }
    }
  }

  /** A semaphore one of whose permits is in use can be released. */
  lemma HolderHasPermit(c: Config, s: Pool, j: Id)
    requires Inv(c, s) && j in s.pc && j in c.jobs && HasPermit(s.pc[j]) && c.jobs[j].group.Some?
    ensures c.jobs[j].group.value in s.permits && s.permits[c.jobs[j].group.value] > 0
  {
    var g := c.jobs[j].group.value;
    assert JobInv(c, s, j) && GroupInv(c, s, g);
    assert Holds(c, s, g, j) && j in Holders(c, s, g);
  }

  lemma IdleHolder(c: Config, s: Pool, j: Id)
    requires c.Valid() && Inv(c, s) && Idle(c, s) && j in s.pc
    ensures !HasPermit(s.pc[j])
  {
    IdleWorkers(c, s);
    assert JobInv(c, s, j);
    if HasPermit(s.pc[j]) && c.jobs[j].group.Some? {
      HolderHasPermit(c, s, j);
    }
    assert !Enabled(c, s, CheckClosed(j)) && !Enabled(c, s, Add(j)) && !Enabled(c, s, Send(j));
    assert !Enabled(c, s, SendPanics(j)) && !Enabled(c, s, Receive(j)) && !Enabled(c, s, Release(j));
  }

  lemma IdleSubmission(c: Config, s: Pool, j: Id)
    requires c.Valid() && Inv(c, s) && Idle(c, s) && j in s.pc
    ensures s.pc[j].Done?
  {
    assert JobInv(c, s, j);
    assert !Enabled(c, s, GroupFor(j)) && !Enabled(c, s, Acquire(j));
    IdleHolder(c, s, j);
    if s.pc[j] == Wanting {
      var g := c.jobs[j].group.value;
      assert GroupInv(c, s, g);
      var k :| k in Holders(c, s, g);
      IdleHolder(c, s, k);
    }
  }

  /**
   Runs are bounded: no interleaving takes more steps than StepsLeft of the initial pool. And
   when nothing can move any more, whether or not there was a Shutdown, every submission has
   returned and every accepted job has been executed to its end.
   */
  lemma AcceptedJobsFinish(c: Config, run: seq<Pool>, i: nat)
    requires c.Valid() && IsRun(c, run) && i < |run|
    ensures i + StepsLeft(run[i]) <= StepsLeft(Init(c))
    ensures Idle(c, run[i]) ==> forall j :: j in c.jobs ==> j in run[i].pc && run[i].pc[j].Done?
    ensures Idle(c, run[i]) ==> run[i].accepted <= run[i].finished
  {
    var s := run[i];
    RunInv(c, run, i);
    StepsBounded(c, run, i);
    if Idle(c, s) {
      IdleWorkers(c, s);
      forall j | j in c.jobs ensures s.pc[j].Done? {
        IdleSubmission(c, s, j);
      }
    }
  }
}
