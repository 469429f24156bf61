/**
 Publishing target results (internal/execution/cache_writer.go, internal/caching/cas.go) as a
 state machine: any number of commits, on task workers or I/O workers, interleave their
 uploads, and every backend operation may fail. Nothing is deleted during a build.
 */
module CacheWriters {
  import opened Results
  import opened DirectoryOutputs
  import opened Sums

  /** A prepared output together with what it was prepared from. */
  datatype Output =
    | FileResult(path: string, content: Bytes)
    | DirectoryResult(path: string, node: Node, plan: DirectoryPlan)
    | OtherResult

  /** One write plan: files uploaded concurrently, then the tree, if there is one. */
  datatype WritePlan = WritePlan(files: set<Bytes>, tree: Option<Bytes>) {
    function All(): set<Bytes> {
      files + if tree.Some? then {tree.value} else {}
    }
  }

  function Contents(uploads: seq<FileUpload>): set<Bytes> {
    set u | u in uploads :: u.content
  }

  function PlanFor(o: Output): WritePlan {
    match o
    case FileResult(_, content) => WritePlan({content}, None)
    case DirectoryResult(_, _, plan) => WritePlan(Contents(plan.uploads), Some(plan.treeBytes))
    case OtherResult => WritePlan({}, None)
  }

  /** PersistPreparedTarget for one target; the plans include pushes, which upload nothing here. */
  datatype Job = Job(changeHash: string, outputs: seq<Output>, plans: seq<WritePlan>, asyncWrites: bool) {
    ghost predicate Valid(c: Codec) {
      && (forall o :: o in outputs ==> PlanFor(o) in plans || o.OtherResult?)
      && (forall o :: o in outputs && o.DirectoryResult? ==> o.node.Dir? && IsPlanOf(c, o.node, o.plan))
    }

    /** Without write plans even asynchronous mode commits on the task worker. */
    predicate Deferred() {
      asyncWrites && plans != []
    }
  }

  /** Bytes that a reader of the output needs from the store. */
  function Needed(o: Output): set<Bytes> {
    PlanFor(o).All()
  }

  datatype Phase =
    | Fresh
    | Submitted
    | Executing(index: nat, todo: set<Bytes>, writing: set<Bytes>, treeLeft: Option<Bytes>, failed: bool)
    | Publishing
    | Cleaning(next: nat, ok: bool)
    | Ended(ok: bool)

  /**
   The backend's two namespaces, the positive-existence cache, and the commits. `cleaned`
   counts the Cleanup calls per plan.
   */
  datatype State = State(
    cas: map<string, Bytes>,
    targets: map<string, seq<Output>>,
    known: set<string>,
    phase: map<nat, Phase>,
    cleaned: map<nat, seq<nat>>,
    pending: set<nat>)

  type Jobs = map<nat, Job>

  datatype Step =
    | Begin(j: nat, accepted: bool)
    | Start(j: nat)
    | Check(j: nat, b: Bytes, sees: bool)
    | Store(j: nat, b: Bytes, ok: bool, lands: bool)
    | Advance(j: nat)
    | Publish(j: nat, ok: bool, lands: bool)
    | Clean(j: nat)

  function Zeros(n: nat): seq<nat> {
    seq(n, i => 0)
  }

  /** The first plan's uploads, or publication when nothing is left to upload. */
  function ExecutePlan(job: Job, index: nat): Phase {
    if index < |job.plans|
    then Executing(index, job.plans[index].files, {}, job.plans[index].tree, false)
    else Publishing
  }

  predicate Enabled(c: Codec, jobs: Jobs, s: State, step: Step) {
    step.j in jobs && step.j in s.phase && step.j in s.cleaned &&
    var p := s.phase[step.j];
    match step
    case Begin(j, accepted) => p == Fresh && (!jobs[j].Deferred() ==> accepted)
    case Start(j) => p == Submitted
    case Check(j, b, sees) => p.Executing? && b in p.todo && (sees ==> c.hash(b) in s.cas)
    case Store(j, b, ok, lands) => p.Executing? && b in p.writing && (ok ==> lands)
    case Advance(j) => p.Executing? && p.todo == {} && p.writing == {}
    case Publish(j, ok, lands) => p == Publishing && (ok ==> lands)
    case Clean(j) => p.Cleaning? && |s.cleaned[j]| == |jobs[j].plans|
  }

  function Apply(c: Codec, jobs: Jobs, s: State, step: Step): State
    requires Enabled(c, jobs, s, step)
  {
    var job, p := jobs[step.j], s.phase[step.j];
    match step
    case Begin(j, accepted) =>
      // A rejected submission cleans up on the task worker.
      if !job.Deferred() then s.(phase := s.phase[j := ExecutePlan(job, 0)])
      else if accepted then s.(phase := s.phase[j := Submitted], pending := s.pending + {j})
      else s.(phase := s.phase[j := Cleaning(0, false)])
    case Start(j) => s.(phase := s.phase[j := ExecutePlan(job, 0)])
    case Check(j, b, sees) =>
      // Cas.Exists: the positive cache first, then the backend, whose answer may be an error.
      if c.hash(b) in s.known || sees
      then s.(phase := s.phase[j := p.(todo := p.todo - {b})], known := s.known + {c.hash(b)})
      else s.(phase := s.phase[j := p.(todo := p.todo - {b}, writing := p.writing + {b})])
    case Store(j, b, ok, lands) =>
      s.(phase := s.phase[j := p.(writing := p.writing - {b}, failed := p.failed || !ok)],
         cas := if lands then s.cas[c.hash(b) := b] else s.cas,
         known := if ok then s.known + {c.hash(b)} else s.known)
    case Advance(j) =>
      s.(phase := s.phase[j :=
        if p.failed then Cleaning(0, false)
        else if p.treeLeft.Some? then p.(todo := {p.treeLeft.value}, treeLeft := None)
        else ExecutePlan(job, p.index + 1)])
    case Publish(j, ok, lands) =>
      s.(phase := s.phase[j := Cleaning(0, ok)],
         targets := if lands then s.targets[job.changeHash := job.outputs] else s.targets)
    case Clean(j) =>
      if p.next < |job.plans|
      then s.(phase := s.phase[j := p.(next := p.next + 1)],
              cleaned := s.cleaned[j := s.cleaned[j][p.next := s.cleaned[j][p.next] + 1]])
      else s.(phase := s.phase[j := Ended(p.ok)], pending := s.pending - {j})
  }

  ghost predicate Taken(c: Codec, jobs: Jobs, s: State, step: Step, s': State) {
    Enabled(c, jobs, s, step) && s' == Apply(c, jobs, s, step)
  }

  // The invariant -------------------------------------------------------------------------

  ghost predicate Present(c: Codec, cas: map<string, Bytes>, bs: set<Bytes>) {
    forall b :: b in bs ==> c.hash(b) in cas
  }

  ghost predicate BlobsInv(c: Codec, s: State) {
    (forall h :: h in s.cas ==> c.hash(s.cas[h]) == h) && s.known <= s.cas.Keys
  }

  /** Blobs sit under their own hash, and no published result misses a blob. */
  ghost predicate StoreInv(c: Codec, s: State) {
    && BlobsInv(c, s)
    && (forall t, o :: t in s.targets && o in s.targets[t] ==> Present(c, s.cas, Needed(o)))
    && (forall t, o :: t in s.targets && o in s.targets[t] && o.DirectoryResult? ==>
          o.node.Dir? && IsPlanOf(c, o.node, o.plan))
  }

  /** What a commit has uploaded by the time it reaches a phase. */
  ghost predicate UploadInv(c: Codec, job: Job, cas: map<string, Bytes>, p: Phase) {
    match p
    case Executing(index, todo, writing, treeLeft, failed) =>
      && index < |job.plans|
      && (!failed ==> forall i :: 0 <= i < index ==> Present(c, cas, job.plans[i].All()))
      && (!failed ==>
            Present(c, cas, job.plans[index].All() - todo - writing - if treeLeft.Some? then {treeLeft.value} else {}))
    case Publishing => forall i :: 0 <= i < |job.plans| ==> Present(c, cas, job.plans[i].All())
    case _ => true
  }

  /** Each plan before the cleaning position was cleaned up once, the others not yet. */
  ghost predicate CleanInv(job: Job, p: Phase, cleaned: seq<nat>) {
    && |cleaned| == |job.plans|
    && (p.Cleaning? ==> p.next <= |job.plans|)
    && var done := if p.Cleaning? then p.next else if p.Ended? then |job.plans| else 0;
       forall i :: 0 <= i < |job.plans| ==> cleaned[i] == if i < done then 1 else 0
  }

  /** The pending counter covers exactly the deferred commits that were accepted and have not ended. */
  ghost predicate PendingInv(jobs: Jobs, s: State)
    requires s.phase.Keys == jobs.Keys
  {
    && (forall j :: j in s.pending ==> j in jobs)
    && forall j {:trigger PendingAt(jobs, s, j)} :: j in jobs ==> PendingAt(jobs, s, j)
  }

  ghost predicate PendingAt(jobs: Jobs, s: State, j: nat) {
    && j in jobs && j in s.phase
    && match s.phase[j]
       case Fresh => j !in s.pending
       case Ended(_) => j !in s.pending
       case Cleaning(_, ok) => (j in s.pending ==> jobs[j].Deferred()) && (ok && jobs[j].Deferred() ==> j in s.pending)
       case _ => j in s.pending <==> jobs[j].Deferred()
  }

  ghost predicate Inv(c: Codec, jobs: Jobs, s: State) {
    && s.phase.Keys == jobs.Keys && s.cleaned.Keys == jobs.Keys
    && (forall j :: j in jobs ==> jobs[j].Valid(c))
    && StoreInv(c, s)
    && (forall j :: j in jobs ==> UploadInv(c, jobs[j], s.cas, s.phase[j]))
    && (forall j :: j in jobs ==> CleanInv(jobs[j], s.phase[j], s.cleaned[j]))
    && PendingInv(jobs, s)
  }

  lemma UploadGrows(c: Codec, job: Job, cas: map<string, Bytes>, cas': map<string, Bytes>, p: Phase)
    requires UploadInv(c, job, cas, p) && cas.Keys <= cas'.Keys
    ensures UploadInv(c, job, cas', p)
  {
  }

  lemma NextPlan(c: Codec, job: Job, cas: map<string, Bytes>, index: nat)
    requires index <= |job.plans| && forall i :: 0 <= i < index ==> Present(c, cas, job.plans[i].All())
    ensures UploadInv(c, job, cas, ExecutePlan(job, index))
  {
  }

  lemma UploadChecked(c: Codec, job: Job, cas: map<string, Bytes>, p: Phase, b: Bytes, present: bool)
    requires UploadInv(c, job, cas, p) && p.Executing? && b in p.todo && (present ==> c.hash(b) in cas)
    ensures UploadInv(c, job, cas,
      if present then p.(todo := p.todo - {b}) else p.(todo := p.todo - {b}, writing := p.writing + {b}))
  {
    if !p.failed {
      var rest := job.plans[p.index].All() - (if p.treeLeft.Some? then {p.treeLeft.value} else {});
      if present {
        assert rest - (p.todo - {b}) - p.writing <= rest - p.todo - p.writing + {b};
      } else {
        assert rest - (p.todo - {b}) - (p.writing + {b}) <= rest - p.todo - p.writing;
      }
    }
  }

  lemma UploadStored(c: Codec, job: Job, cas: map<string, Bytes>, p: Phase, b: Bytes, ok: bool)
    requires UploadInv(c, job, cas, p) && p.Executing? && b in p.writing && (ok ==> c.hash(b) in cas)
    ensures UploadInv(c, job, cas, p.(writing := p.writing - {b}, failed := p.failed || !ok))
  {
    if !p.failed && ok {
      var rest := job.plans[p.index].All() - p.todo - (if p.treeLeft.Some? then {p.treeLeft.value} else {});
      assert rest - (p.writing - {b}) <= rest - p.writing + {b};
    }
  }

  lemma UploadAdvanced(c: Codec, job: Job, cas: map<string, Bytes>, p: Phase)
    requires UploadInv(c, job, cas, p) && p.Executing? && p.todo == {} && p.writing == {} && !p.failed
    ensures if p.treeLeft.Some?
      then UploadInv(c, job, cas, p.(todo := {p.treeLeft.value}, treeLeft := None))
      else UploadInv(c, job, cas, ExecutePlan(job, p.index + 1))
  {
    var all := job.plans[p.index].All();
    if p.treeLeft.Some? {
      assert all - {p.treeLeft.value} - {} - {} == all - {} - {} - {p.treeLeft.value};
    } else {
      assert all - {} - {} - {} == all;
      NextPlan(c, job, cas, p.index + 1);
    }
  }

  lemma UploadStep(c: Codec, jobs: Jobs, s: State, step: Step, s': State)
    requires BlobsInv(c, s) && Taken(c, jobs, s, step, s') && UploadInv(c, jobs[step.j], s.cas, s.phase[step.j])
    ensures step.j in s'.phase && UploadInv(c, jobs[step.j], s'.cas, s'.phase[step.j])
  {
    var job, p := jobs[step.j], s.phase[step.j];
    match step
    case Begin(j, accepted) => NextPlan(c, job, s.cas, 0);
    case Start(j) => NextPlan(c, job, s.cas, 0);
    case Check(j, b, sees) => UploadChecked(c, job, s.cas, p, b, c.hash(b) in s.known || sees);
    case Store(j, b, ok, lands) =>
      UploadGrows(c, job, s.cas, s'.cas, p);
      UploadStored(c, job, s'.cas, p, b, ok);
    case Advance(j) =>
      if !p.failed {
        UploadAdvanced(c, job, s.cas, p);
      }
    case Publish(j, ok, lands) =>
    case Clean(j) =>
  }

  lemma CleanStep(c: Codec, jobs: Jobs, s: State, step: Step, s': State)
    requires Taken(c, jobs, s, step, s') && CleanInv(jobs[step.j], s.phase[step.j], s.cleaned[step.j])
    ensures step.j in s'.phase && step.j in s'.cleaned
    ensures CleanInv(jobs[step.j], s'.phase[step.j], s'.cleaned[step.j])
  {
    if step.Clean? {
      CleanNext(jobs[step.j], s.phase[step.j], s.cleaned[step.j]);
    } else {
      assert s'.cleaned[step.j] == s.cleaned[step.j];
      assert !s.phase[step.j].Cleaning? && !s.phase[step.j].Ended?;
    }
  }

  lemma CleanNext(job: Job, p: Phase, cleaned: seq<nat>)
    requires CleanInv(job, p, cleaned) && p.Cleaning?
    ensures if p.next < |job.plans|
      then CleanInv(job, p.(next := p.next + 1), cleaned[p.next := cleaned[p.next] + 1])
      else CleanInv(job, Ended(p.ok), cleaned)
  {
  }

  lemma StoreStep(c: Codec, jobs: Jobs, s: State, step: Step, s': State)
    requires Inv(c, jobs, s) && Taken(c, jobs, s, step, s')
    ensures StoreInv(c, s') && s.cas.Keys <= s'.cas.Keys
  {
    if step.Publish? {
      PublishStep(c, jobs[step.j], s, s');
    } else if step.Check? || step.Store? {
      BlobStep(c, jobs, s, step, s');
      PublishedGrows(c, s, s');
    }
  }

  /** Checks and writes leave the results alone. */
  lemma BlobStep(c: Codec, jobs: Jobs, s: State, step: Step, s': State)
    requires BlobsInv(c, s) && Taken(c, jobs, s, step, s') && (step.Check? || step.Store?)
    ensures BlobsInv(c, s') && s'.targets == s.targets && s.cas.Keys <= s'.cas.Keys
  {
  }

  lemma PublishStep(c: Codec, job: Job, s: State, s': State)
    requires StoreInv(c, s) && job.Valid(c) && UploadInv(c, job, s.cas, Publishing)
    requires s'.cas == s.cas && s'.known == s.known
    requires s'.targets == s.targets || s'.targets == s.targets[job.changeHash := job.outputs]
    ensures StoreInv(c, s')
  {
    PublishKeepsPromise(c, job, s.cas);
  }

  lemma PublishedGrows(c: Codec, s: State, s': State)
    requires StoreInv(c, s) && s'.targets == s.targets && s.cas.Keys <= s'.cas.Keys
    ensures forall t, o :: t in s'.targets && o in s'.targets[t] ==> Present(c, s'.cas, Needed(o))
  {
    forall t, o | t in s'.targets && o in s'.targets[t] ensures Present(c, s'.cas, Needed(o)) {
      assert Present(c, s.cas, Needed(o));
    }
  }

  lemma PublishKeepsPromise(c: Codec, job: Job, cas: map<string, Bytes>)
    requires job.Valid(c) && UploadInv(c, job, cas, Publishing)
    ensures forall o :: o in job.outputs ==> Present(c, cas, Needed(o))
  {
    forall o | o in job.outputs ensures Present(c, cas, Needed(o)) {
      if !o.OtherResult? {
        var i :| 0 <= i < |job.plans| && job.plans[i] == PlanFor(o);
        assert Present(c, cas, job.plans[i].All());
      }
    }
  }

  lemma PendingStep(c: Codec, jobs: Jobs, s: State, step: Step, s': State)
    requires s.phase.Keys == jobs.Keys && PendingInv(jobs, s) && Taken(c, jobs, s, step, s')
    ensures s'.phase.Keys == jobs.Keys && PendingInv(jobs, s')
  {
    forall j | j in jobs ensures PendingAt(jobs, s', j) {
      assert PendingAt(jobs, s, j);
    }
  }

  lemma OthersStep(c: Codec, jobs: Jobs, s: State, step: Step, s': State)
    requires Taken(c, jobs, s, step, s')
    ensures
      && s'.phase.Keys == s.phase.Keys && s'.cleaned.Keys == s.cleaned.Keys
      && forall j :: j in s.phase && j in s.cleaned && j != step.j ==>
           s'.phase[j] == s.phase[j] && s'.cleaned[j] == s.cleaned[j]
  {
  }

  lemma InvStep(c: Codec, jobs: Jobs, s: State, step: Step, s': State)
    requires Inv(c, jobs, s) && Taken(c, jobs, s, step, s')
    ensures Inv(c, jobs, s')
  {
    StoreStep(c, jobs, s, step, s');
    OthersStep(c, jobs, s, step, s');
    PendingStep(c, jobs, s, step, s');
    forall j | j in jobs
      ensures UploadInv(c, jobs[j], s'.cas, s'.phase[j]) && CleanInv(jobs[j], s'.phase[j], s'.cleaned[j])
    {
      if j == step.j {
        UploadStep(c, jobs, s, step, s');
        CleanStep(c, jobs, s, step, s');
      } else {
        UploadGrows(c, jobs[j], s.cas, s'.cas, s.phase[j]);
      }
    }
  }

  // Runs -----------------------------------------------------------------------------------

  /** Before the build: a store left by earlier builds, and no commit begun. */
  ghost predicate Init(c: Codec, jobs: Jobs, s: State) {
    && (forall j :: j in jobs ==> jobs[j].Valid(c))
    && StoreInv(c, s)
    && s.phase == (map j | j in jobs :: Fresh)
    && s.cleaned == (map j | j in jobs :: Zeros(|jobs[j].plans|))
    && s.pending == {}
  }

  ghost predicate Next(c: Codec, jobs: Jobs, s: State, s': State) {
    exists step :: Taken(c, jobs, s, step, s')
  }

  ghost predicate StepTaken(c: Codec, jobs: Jobs, run: seq<State>, i: int) {
    0 <= i < |run| - 1 ==> Next(c, jobs, run[i], run[i + 1])
  }

  ghost predicate IsRun(c: Codec, jobs: Jobs, run: seq<State>) {
    |run| >= 1 && Init(c, jobs, run[0]) && forall i :: StepTaken(c, jobs, run, i)
  }

  lemma InitInv(c: Codec, jobs: Jobs, s: State)
    requires Init(c, jobs, s)
    ensures Inv(c, jobs, s)
  {
  }

  lemma NextInv(c: Codec, jobs: Jobs, s: State, s': State)
    requires Inv(c, jobs, s) && Next(c, jobs, s, s')
    ensures Inv(c, jobs, s')
  {
    var step :| Taken(c, jobs, s, step, s');
    InvStep(c, jobs, s, step, s');
  }

  lemma {:induction false} RunInv(c: Codec, jobs: Jobs, run: seq<State>, i: nat)
    requires IsRun(c, jobs, run) && i < |run|
    ensures Inv(c, jobs, run[i])
  {
    if i == 0 {
      InitInv(c, jobs, run[0]);
    } else {
      RunInv(c, jobs, run, i - 1);
      assert StepTaken(c, jobs, run, i - 1);
      NextInv(c, jobs, run[i - 1], run[i]);
    }
  }

  /**
   At every moment of every interleaving, with any failures: every file, tree and tree
   member of a published result is in the store, the positive-existence cache claims
   nothing absent, and blobs sit under their own hash.
   */
  lemma NoDanglingResults(c: Codec, jobs: Jobs, run: seq<State>, i: nat)
    requires IsRun(c, jobs, run) && i < |run|
    ensures forall t, o, b :: t in run[i].targets && o in run[i].targets[t] && b in Needed(o) ==>
              c.hash(b) in run[i].cas
    ensures run[i].known <= run[i].cas.Keys
    ensures forall h :: h in run[i].cas ==> c.hash(run[i].cas[h]) == h
  {
    RunInv(c, jobs, run, i);
  }

  /** Without collisions a published directory can be loaded back exactly as it was written. */
  lemma PublishedDirectoryStored(c: Codec, jobs: Jobs, run: seq<State>, i: nat, t: string, o: Output)
    requires IsRun(c, jobs, run) && i < |run|
    requires t in run[i].targets && o in run[i].targets[t] && o.DirectoryResult?
    requires c.CollisionFree(run[i].cas.Values + Needed(o))
    ensures o.node.Dir? && Stored(c, run[i].cas, o.node, o.plan)
  {
    var cas := run[i].cas;
    RunInv(c, jobs, run, i);
    assert Present(c, cas, Needed(o));
    forall b | b in Needed(o) ensures c.hash(b) in cas && cas[c.hash(b)] == b {
      assert cas[c.hash(b)] in cas.Values;
    }
    forall b | b in ContentsBelow(o.node) ensures b in Needed(o) {
      assert FileUpload(c.DigestOf(b), b) in o.plan.uploads;
    }
  }

  /** When a commit has ended, on whatever path, each of its plans was cleaned up exactly once. */
  lemma CleanedExactlyOnce(c: Codec, jobs: Jobs, run: seq<State>, i: nat, j: nat)
    requires IsRun(c, jobs, run) && i < |run|
    requires j in jobs && j in run[i].phase && run[i].phase[j].Ended?
    ensures j in run[i].cleaned && |run[i].cleaned[j]| == |jobs[j].plans|
    ensures forall k :: 0 <= k < |jobs[j].plans| ==> run[i].cleaned[j][k] == 1
    ensures j !in run[i].pending
  {
    RunInv(c, jobs, run, i);
    assert PendingAt(jobs, run[i], j);
  }

  /**
   Pending are exactly the asynchronous commits with something to upload, from their submission
   to their end; only a rejected one was never pending when it cleans up.
   */
  lemma PendingCovers(c: Codec, jobs: Jobs, run: seq<State>, i: nat, j: nat)
    requires IsRun(c, jobs, run) && i < |run| && j in jobs
    ensures j in run[i].phase
    ensures !run[i].phase[j].Fresh? && !run[i].phase[j].Ended? && (run[i].phase[j].Cleaning? ==> run[i].phase[j].ok) ==>
              (j in run[i].pending <==> jobs[j].asyncWrites && jobs[j].plans != [])
    ensures j in run[i].pending ==> jobs[j].asyncWrites && jobs[j].plans != []
  {
    RunInv(c, jobs, run, i);
    assert PendingAt(jobs, run[i], j);
  }

  predicate Succeeded(p: Phase) {
    (p.Cleaning? || p.Ended?) && p.ok
  }

  /** A job that publishes `outputs` under `t`. */
  predicate OfJob(jobs: Jobs, j: nat, t: string, outputs: seq<Output>) {
    j in jobs && jobs[j].changeHash == t && jobs[j].outputs == outputs
  }

  ghost predicate OfSomeJob(jobs: Jobs, t: string, outputs: seq<Output>) {
    exists j :: OfJob(jobs, j, t, outputs)
  }

  /** The result under `t` is what some job was to publish, or what was there before the build. */
  ghost predicate Published(jobs: Jobs, before: map<string, seq<Output>>, s: State, t: string) {
    t in s.targets && (OfSomeJob(jobs, t, s.targets[t]) || (t in before && before[t] == s.targets[t]))
  }

  lemma TargetsStep(c: Codec, jobs: Jobs, s: State, step: Step, s': State)
    requires Taken(c, jobs, s, step, s')
    ensures if step.Publish? && step.lands then s'.targets == s.targets[jobs[step.j].changeHash := jobs[step.j].outputs]
      else s'.targets == s.targets
  {
  }

  /** Every result in the store is the complete result of a job, or was there before the build and is unchanged. */
  lemma {:induction false} ResultsOfJobs(c: Codec, jobs: Jobs, run: seq<State>, i: nat)
    requires IsRun(c, jobs, run) && i < |run|
    ensures forall t :: t in run[i].targets ==> Published(jobs, run[0].targets, run[i], t)
    ensures run[0].targets.Keys <= run[i].targets.Keys
  {
    if i > 0 {
      ResultsOfJobs(c, jobs, run, i - 1);
      assert StepTaken(c, jobs, run, i - 1);
      var step :| Taken(c, jobs, run[i - 1], step, run[i]);
      TargetsStep(c, jobs, run[i - 1], step, run[i]);
      forall t | t in run[i].targets ensures Published(jobs, run[0].targets, run[i], t) {
        if step.Publish? && step.lands && t == jobs[step.j].changeHash {
          assert OfJob(jobs, step.j, t, run[i].targets[t]);
        } else {
          assert Published(jobs, run[0].targets, run[i - 1], t);
        }
      }
    }
  }

  /** The result under the change hash of `j` is a job's, complete. */
  ghost predicate HasResult(jobs: Jobs, s: State, j: nat) {
    j in jobs && jobs[j].changeHash in s.targets && OfSomeJob(jobs, jobs[j].changeHash, s.targets[jobs[j].changeHash])
  }

  lemma PublishedStays(c: Codec, jobs: Jobs, s: State, step: Step, s': State, j: nat)
    requires Taken(c, jobs, s, step, s') && HasResult(jobs, s, j)
    ensures HasResult(jobs, s', j)
  {
    TargetsStep(c, jobs, s, step, s');
    if step.Publish? && step.lands {
      assert OfJob(jobs, step.j, jobs[step.j].changeHash, s'.targets[jobs[step.j].changeHash]);
    }
  }

  lemma SucceedsByPublish(c: Codec, jobs: Jobs, s: State, step: Step, s': State, j: nat)
    requires Taken(c, jobs, s, step, s') && j in jobs && j in s.phase && j in s'.phase
    requires Succeeded(s'.phase[j]) && !Succeeded(s.phase[j])
    ensures step.Publish? && step.j == j && step.ok && step.lands
  {
  }

  /**
   A commit that reports success has published: under its change hash is the complete result
   of a job with that hash, its own when no other job has it.
   */
  lemma {:induction false} SuccessPublishes(c: Codec, jobs: Jobs, run: seq<State>, i: nat, j: nat)
    requires IsRun(c, jobs, run) && i < |run| && j in jobs && j in run[i].phase && Succeeded(run[i].phase[j])
    ensures HasResult(jobs, run[i], j)
    ensures (forall k :: k in jobs && jobs[k].changeHash == jobs[j].changeHash ==> k == j) ==>
              run[i].targets[jobs[j].changeHash] == jobs[j].outputs
  {
    if i > 0 {
      PhasesKnown(c, jobs, run, i - 1);
      assert StepTaken(c, jobs, run, i - 1);
      var step :| Taken(c, jobs, run[i - 1], step, run[i]);
      if Succeeded(run[i - 1].phase[j]) {
        SuccessPublishes(c, jobs, run, i - 1, j);
        PublishedStays(c, jobs, run[i - 1], step, run[i], j);
      } else {
        SucceedsByPublish(c, jobs, run[i - 1], step, run[i], j);
        TargetsStep(c, jobs, run[i - 1], step, run[i]);
        assert OfJob(jobs, j, jobs[j].changeHash, run[i].targets[jobs[j].changeHash]);
      }
    }
  }

  /** Step `i` of the run is `step`. */
  ghost predicate StepAt(c: Codec, jobs: Jobs, run: seq<State>, i: int, step: Step) {
    0 <= i < |run| - 1 && Taken(c, jobs, run[i], step, run[i + 1])
  }

  /** A write, the publication or the submission of `j` fails. */
  predicate Fails(step: Step, j: nat) {
    step.j == j && ((step.Store? && !step.ok) || (step.Publish? && !step.ok) || (step.Begin? && !step.accepted))
  }

  predicate Failing(p: Phase) {
    (p.Executing? && p.failed) || ((p.Cleaning? || p.Ended?) && !p.ok)
  }

  lemma FailingStep(c: Codec, jobs: Jobs, s: State, step: Step, s': State, j: nat)
    requires Taken(c, jobs, s, step, s') && j in jobs && j in s.phase && j in s'.phase
    ensures Failing(s'.phase[j]) <==> Failing(s.phase[j]) || Fails(step, j)
  {
  }

  lemma PhasesKnown(c: Codec, jobs: Jobs, run: seq<State>, i: nat)
    requires IsRun(c, jobs, run) && i < |run|
    ensures run[i].phase.Keys == jobs.Keys
  {
    RunInv(c, jobs, run, i);
  }

  lemma {:induction false} FailedByStep(c: Codec, jobs: Jobs, run: seq<State>, i: nat, j: nat)
    returns (k: nat, step: Step)
    requires IsRun(c, jobs, run) && i < |run| && j in jobs && j in run[i].phase && Failing(run[i].phase[j])
    ensures k < i && StepAt(c, jobs, run, k, step) && Fails(step, j)
  {
    PhasesKnown(c, jobs, run, i - 1);
    assert StepTaken(c, jobs, run, i - 1);
    step :| Taken(c, jobs, run[i - 1], step, run[i]);
    k := i - 1;
    FailingStep(c, jobs, run[k], step, run[i], j);
    if !Fails(step, j) {
      k, step := FailedByStep(c, jobs, run, k, j);
    }
  }

  lemma {:induction false} FailureStays(c: Codec, jobs: Jobs, run: seq<State>, k: nat, i: nat, j: nat)
    requires IsRun(c, jobs, run) && k <= i < |run| && j in jobs && j in run[k].phase && Failing(run[k].phase[j])
    ensures j in run[i].phase && Failing(run[i].phase[j])
  {
    if k < i {
      FailureStays(c, jobs, run, k, i - 1, j);
      PhasesKnown(c, jobs, run, i);
      assert StepTaken(c, jobs, run, i - 1);
      var step :| Taken(c, jobs, run[i - 1], step, run[i]);
      FailingStep(c, jobs, run[i - 1], step, run[i], j);
    }
  }

  /** A commit fails exactly when one of its writes, its publication or its submission has failed. */
  lemma FailsByStep(c: Codec, jobs: Jobs, run: seq<State>, i: nat, j: nat)
    requires IsRun(c, jobs, run) && i < |run| && j in jobs && j in run[i].phase
    ensures Failing(run[i].phase[j]) <==>
              exists k, step :: 0 <= k < i && StepAt(c, jobs, run, k, step) && Fails(step, j)
  {
    if Failing(run[i].phase[j]) {
      var k, step := FailedByStep(c, jobs, run, i, j);
    }
    forall k, step | 0 <= k < i && StepAt(c, jobs, run, k, step) && Fails(step, j) ensures Failing(run[i].phase[j]) {
      FailsAt(c, jobs, run, k, step, j);
      FailureStays(c, jobs, run, k + 1, i, j);
    }
  }

  lemma FailsAt(c: Codec, jobs: Jobs, run: seq<State>, k: nat, step: Step, j: nat)
    requires IsRun(c, jobs, run) && StepAt(c, jobs, run, k, step) && Fails(step, j)
    ensures j in jobs && j in run[k + 1].phase && Failing(run[k + 1].phase[j])
  {
    PhasesKnown(c, jobs, run, k);
    PhasesKnown(c, jobs, run, k + 1);
    FailingStep(c, jobs, run[k], step, run[k + 1], j);
  }

  // Every commit ends ------------------------------------------------------------------------

  lemma CommitProgress(c: Codec, jobs: Jobs, run: seq<State>, i: nat, j: nat)
    requires IsRun(c, jobs, run) && i < |run|
    requires j in jobs && j in run[i].phase && !run[i].phase[j].Ended?
    ensures exists step: Step :: step.j == j && Enabled(c, jobs, run[i], step)
  {
    RunInv(c, jobs, run, i);
    var s := run[i];
    var p := s.phase[j];
    assert CleanInv(jobs[j], p, s.cleaned[j]);
    match p
    case Fresh => assert Enabled(c, jobs, s, Begin(j, true));
    case Submitted => assert Enabled(c, jobs, s, Start(j));
    case Executing(_, todo, writing, _, _) =>
      if b :| b in todo {
        assert Enabled(c, jobs, s, Check(j, b, false));
      } else if b :| b in writing {
        assert Enabled(c, jobs, s, Store(j, b, false, false));
      } else {
        assert Enabled(c, jobs, s, Advance(j));
      }
    case Publishing => assert Enabled(c, jobs, s, Publish(j, false, false));
    case Cleaning(_, _) => assert Enabled(c, jobs, s, Clean(j));
  }

  /** The steps that the plans from `index` on take at most: a check and a write of each blob, and the advances. */
  function PlanSteps(job: Job, index: nat): nat
    decreases |job.plans| - index
  {
    if index >= |job.plans| then 0
    else
      var plan := job.plans[index];
      2 * |plan.files| + (if plan.tree.Some? then 4 else 1) + PlanSteps(job, index + 1)
  }

  /** The steps that a commit takes at most from the given phase to its end. */
  function StepsLeft(job: Job, p: Phase): nat {
    var n := |job.plans|;
    match p
    case Fresh => PlanSteps(job, 0) + n + 4
    case Submitted => PlanSteps(job, 0) + n + 3
    case Executing(index, todo, writing, treeLeft, _) =>
      2 * |todo| + |writing| + (if treeLeft.Some? then 4 else 1) + PlanSteps(job, index + 1) + n + 2
    case Publishing => n + 2
    case Cleaning(next, _) => if next < n then n - next + 1 else 1
    case Ended(_) => 0
  }

  lemma PlanStarts(job: Job, index: nat)
    ensures StepsLeft(job, ExecutePlan(job, index)) == PlanSteps(job, index) + |job.plans| + 2
  {
  }

  lemma UploadDrops(job: Job, p: Phase, b: Bytes)
    requires p.Executing?
    ensures b in p.todo ==> StepsLeft(job, p.(todo := p.todo - {b})) < StepsLeft(job, p)
    ensures b in p.todo ==>
      StepsLeft(job, p.(todo := p.todo - {b}, writing := p.writing + {b})) < StepsLeft(job, p)
    ensures b in p.writing ==>
      forall failed :: StepsLeft(job, p.(writing := p.writing - {b}, failed := failed)) < StepsLeft(job, p)
  {
    assert b in p.todo ==> |p.todo - {b}| == |p.todo| - 1 && |p.writing + {b}| <= |p.writing| + 1;
    assert b in p.writing ==> |p.writing - {b}| == |p.writing| - 1;
  }

  /** Every step of a commit uses up some of its steps, whatever fails. */
  lemma StepsDrop(c: Codec, jobs: Jobs, s: State, step: Step, s': State)
    requires Taken(c, jobs, s, step, s')
    ensures step.j in s'.phase && StepsLeft(jobs[step.j], s'.phase[step.j]) < StepsLeft(jobs[step.j], s.phase[step.j])
  {
    var job, p := jobs[step.j], s.phase[step.j];
    match step
    case Begin(j, accepted) => PlanStarts(job, 0);
    case Start(j) => PlanStarts(job, 0);
    case Check(j, b, sees) => UploadDrops(job, p, b);
    case Store(j, b, ok, lands) => UploadDrops(job, p, b);
    case Advance(j) => PlanStarts(job, p.index + 1);
    case Publish(j, ok, lands) =>
    case Clean(j) =>
  }

  function AllSteps(jobs: Jobs, s: State): (left: map<nat, nat>)
    requires s.phase.Keys == jobs.Keys
    ensures left.Keys == jobs.Keys && forall j :: j in left ==> left[j] == StepsLeft(jobs[j], s.phase[j])
  {
    map j | j in jobs :: StepsLeft(jobs[j], s.phase[j])
  }

  ghost function WorkLeft(jobs: Jobs, s: State): nat
    requires s.phase.Keys == jobs.Keys
  {
    Sum(AllSteps(jobs, s))
  }

  lemma LessWork(jobs: Jobs, s: State, s': State, j: nat)
    requires s.phase.Keys == jobs.Keys && s'.phase.Keys == jobs.Keys && j in jobs
    requires forall k :: k in jobs && k != j ==> s'.phase[k] == s.phase[k]
    requires StepsLeft(jobs[j], s'.phase[j]) < StepsLeft(jobs[j], s.phase[j])
    ensures WorkLeft(jobs, s') < WorkLeft(jobs, s)
  {
    SumDrops(AllSteps(jobs, s'), AllSteps(jobs, s), j, 1);
  }

  lemma WorkDrops(c: Codec, jobs: Jobs, s: State, s': State)
    requires s.phase.Keys == jobs.Keys && s.cleaned.Keys == jobs.Keys && Next(c, jobs, s, s')
    ensures s'.phase.Keys == jobs.Keys && s'.cleaned.Keys == jobs.Keys && WorkLeft(jobs, s') < WorkLeft(jobs, s)
  {
    var step :| Taken(c, jobs, s, step, s');
    OthersStep(c, jobs, s, step, s');
    StepsDrop(c, jobs, s, step, s');
    LessWork(jobs, s, s', step.j);
  }

  /** No commit can take a step. */
  ghost predicate Quiet(c: Codec, jobs: Jobs, s: State) {
    forall step: Step :: !Enabled(c, jobs, s, step)
  }

  /** Each step uses up some of the work that the commits had. */
  lemma {:induction false} WorkBoundsSteps(c: Codec, jobs: Jobs, run: seq<State>, i: nat)
    requires i < |run| && run[0].phase.Keys == jobs.Keys && run[0].cleaned.Keys == jobs.Keys
    requires forall k :: StepTaken(c, jobs, run, k)
    ensures run[i].phase.Keys == jobs.Keys && run[i].cleaned.Keys == jobs.Keys
    ensures i + WorkLeft(jobs, run[i]) <= WorkLeft(jobs, run[0])
  {
    if i > 0 {
      WorkBoundsSteps(c, jobs, run, i - 1);
      assert StepTaken(c, jobs, run, i - 1);
      WorkDrops(c, jobs, run[i - 1], run[i]);
    }
  }

  /**
   The commits take a bounded number of steps, whatever the order and whatever fails; when
   none can take another step, all of them have ended.
   */
  lemma CommitsEnd(c: Codec, jobs: Jobs, run: seq<State>, i: nat)
    requires IsRun(c, jobs, run) && i < |run|
    ensures run[0].phase.Keys == jobs.Keys && run[i].phase.Keys == jobs.Keys
    ensures i + WorkLeft(jobs, run[i]) <= WorkLeft(jobs, run[0])
    ensures Quiet(c, jobs, run[i]) ==> forall j :: j in jobs ==> run[i].phase[j].Ended?
  {
    WorkBoundsSteps(c, jobs, run, i);
    forall j | j in jobs && !run[i].phase[j].Ended? ensures !Quiet(c, jobs, run[i]) {
      CommitProgress(c, jobs, run, i, j);
    }
  }
}
