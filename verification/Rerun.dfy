/**
 Re-running dependencies whose outputs cannot be loaded (LoadDependencyOutputs and its
 singleflight group, internal/execution/execute.go) as a state machine: any number of tasks
 load, lead re-runs, and wait for the re-runs that others lead.
 */
module Reruns {
  import opened Labels
  import opened Digraphs
  import opened Sums

  /** Each task loads the dependencies of one target; the commands of `failing` may fail. */
  datatype Config = Config(
    g: Digraph,
    dependencies: map<TargetLabel, seq<TargetLabel>>,
    tasks: map<nat, TargetLabel>,
    failing: set<TargetLabel>)
  {
    ghost predicate Valid() {
      && g.Valid() && Acyclic(g)
      && (forall l, d :: l in dependencies && d in dependencies[l] ==> g.Edge(d, l) && d in dependencies)
      && (forall t :: t in tasks ==> tasks[t] in dependencies)
    }

    function Deps(l: TargetLabel): seq<TargetLabel> {
      if l in dependencies then dependencies[l] else []
    }
  }

  /** One call of LoadDependencyOutputs, at one dependency of its target. */
  datatype Frame = Frame(target: TargetLabel, pos: nat)

  /** What the innermost call is about to do. */
  datatype Stage =
    | Rechecking             // in a flight just opened
    | Next                   // at the head of the loop
    | Loading
    | Asking                 // calls Do for the dependency
    | Waiting                // for a flight that another task leads
    | Answered(ok: bool)     // Do has returned
    | Executing              // in a flight whose dependencies are loaded

  /** Each call of `below` leads the flight of the dependency that the next call works on. */
  datatype Task = Active(below: seq<Frame>, at: Frame, stage: Stage) | Ended(ok: bool) {
    function Frames(): seq<Frame> {
      if Active? then below + [at] else []
    }
  }

  /** `ran` lists the successful re-runs; a flight is mapped to the task that leads it. */
  datatype State = State(
    tasks: map<nat, Task>,
    loaded: set<TargetLabel>,
    flights: map<TargetLabel, nat>,
    ran: seq<TargetLabel>)

  function Init(c: Config, loaded: set<TargetLabel>): State {
    State(map t | t in c.tasks :: Active([], Frame(c.tasks[t], 0), Next), loaded, map[], [])
  }

  datatype Step =
    | Recheck(t: nat)
    | Advance(t: nat)
    | Load(t: nat, ok: bool)
    | Do(t: nat)
    | Resume(t: nat)
    | Execute(t: nat, ok: bool)

  /** The dependency that a call is at. */
  predicate AtDependency(c: Config, f: Frame, d: TargetLabel) {
    f.pos < |c.Deps(f.target)| && c.Deps(f.target)[f.pos] == d
  }

  predicate WaitsFor(c: Config, task: Task, d: TargetLabel) {
    task.Active? && task.stage == Waiting && AtDependency(c, task.at, d)
  }

  predicate Enabled(c: Config, s: State, step: Step) {
    step.t in s.tasks && s.tasks[step.t].Active? &&
    var task := s.tasks[step.t];
    match step
    case Recheck(t) => task.stage == Rechecking
    case Advance(t) => task.stage == Next
    case Load(t, ok) => task.stage == Loading && task.at.pos < |c.Deps(task.at.target)|
    case Do(t) => task.stage == Asking && task.at.pos < |c.Deps(task.at.target)|
    case Resume(t) => task.stage.Answered?
    case Execute(t, ok) => task.stage == Executing && (!ok ==> task.at.target in c.failing)
  }

  function Moved(s: State, t: nat, pos: nat, stage: Stage): State
    requires t in s.tasks && s.tasks[t].Active?
  {
    s.(tasks := s.tasks[t := s.tasks[t].(at := s.tasks[t].at.(pos := pos), stage := stage)])
  }

  /** Every task that waits for the flight of `d` gets its answer. */
  function Deliver(c: Config, tasks: map<nat, Task>, d: TargetLabel, ok: bool): map<nat, Task> {
    map t | t in tasks :: if WaitsFor(c, tasks[t], d) then tasks[t].(stage := Answered(ok)) else tasks[t]
  }

  /** The innermost call returns: to the flight it was made for, whose tasks are answered, or for good. */
  function Return(c: Config, s: State, t: nat, ok: bool): State
    requires t in s.tasks && s.tasks[t].Active?
  {
    var task := s.tasks[t];
    if task.below == [] then s.(tasks := s.tasks[t := Ended(ok)])
    else
      var last := |task.below| - 1;
      var caller := Active(task.below[..last], task.below[last], Answered(ok));
      s.(tasks := Deliver(c, s.tasks, task.at.target, ok)[t := caller], flights := s.flights - {task.at.target})
  }

  function Apply(c: Config, s: State, step: Step): State
    requires Enabled(c, s, step)
  {
    var task := s.tasks[step.t];
    var at := task.at;
    match step
    case Recheck(t) => if at.target in s.loaded then Return(c, s, t, true) else Moved(s, t, at.pos, Next)
    case Advance(t) =>
      if at.pos >= |c.Deps(at.target)| then
        if task.below == [] then Return(c, s, t, true) else Moved(s, t, at.pos, Executing)
      else if c.Deps(at.target)[at.pos] in s.loaded then Moved(s, t, at.pos + 1, Next)
      else Moved(s, t, at.pos, Loading)
    case Load(t, ok) =>
      if ok then Moved(s, t, at.pos + 1, Next).(loaded := s.loaded + {c.Deps(at.target)[at.pos]})
      else Moved(s, t, at.pos, Asking)
    case Do(t) =>
      var d := c.Deps(at.target)[at.pos];
      if d in s.flights then Moved(s, t, at.pos, Waiting)
      else s.(tasks := s.tasks[t := Active(task.below + [at], Frame(d, 0), Rechecking)], flights := s.flights[d := t])
    case Resume(t) =>
      if task.stage.ok then Moved(s, t, at.pos + 1, Next) else Return(c, s, t, false)
    case Execute(t, ok) =>
      if ok then Return(c, s.(loaded := s.loaded + {at.target}, ran := s.ran + [at.target]), t, true)
      else Return(c, s, t, false)
  }

  ghost predicate Taken(c: Config, s: State, step: Step, s': State) {
    Enabled(c, s, step) && s' == Apply(c, s, step)
  }

  // The invariant -------------------------------------------------------------------------

  ghost predicate AllIn(ds: seq<TargetLabel>, loaded: set<TargetLabel>) {
    forall d :: d in ds ==> d in loaded
  }

  /** A command that may fail stands behind the failure of `l`. */
  ghost predicate Blamed(c: Config, l: TargetLabel) {
    exists f :: f in c.failing && Reaches(c.g, f, l)
  }

  ghost predicate MayFail(c: Config, l: TargetLabel) {
    l in c.failing || Blamed(c, l)
  }

  /** Dependencies before the position are loaded, and the next call is for the one at it. */
  ghost predicate FrameOk(c: Config, loaded: set<TargetLabel>, frames: seq<Frame>, k: int) {
    0 <= k < |frames| ==>
      && frames[k].target in c.dependencies
      && frames[k].pos <= |c.Deps(frames[k].target)|
      && AllIn(c.Deps(frames[k].target)[..frames[k].pos], loaded)
      && (k + 1 < |frames| ==> AtDependency(c, frames[k], frames[k + 1].target))
  }

  ghost predicate ChainOk(c: Config, loaded: set<TargetLabel>, frames: seq<Frame>) {
    forall k {:trigger FrameOk(c, loaded, frames, k)} :: FrameOk(c, loaded, frames, k)
  }

  /** Every call but the outermost is made inside a flight of this task that has not re-run anything yet. */
  ghost predicate LeadsAt(s: State, t: nat, frames: seq<Frame>, k: int) {
    1 <= k < |frames| ==>
      && frames[k].target in s.flights && s.flights[frames[k].target] == t
  }

  ghost predicate Leads(s: State, t: nat, frames: seq<Frame>) {
    forall k {:trigger LeadsAt(s, t, frames, k)} :: LeadsAt(s, t, frames, k)
  }

  ghost predicate NotRanAt(ran: seq<TargetLabel>, frames: seq<Frame>, k: int) {
    1 <= k < |frames| ==> frames[k].target !in ran
  }

  ghost predicate NotRan(ran: seq<TargetLabel>, frames: seq<Frame>) {
    forall k {:trigger NotRanAt(ran, frames, k)} :: NotRanAt(ran, frames, k)
  }

  ghost predicate StageOk(c: Config, s: State, task: Task)
    requires task.Active?
  {
    var ds := c.Deps(task.at.target);
    match task.stage
    case Rechecking => task.below != []
    case Next => true
    case Executing => task.below != [] && task.at.pos == |ds|
    case Answered(ok) => task.at.pos < |ds| && if ok then ds[task.at.pos] in s.loaded else MayFail(c, ds[task.at.pos])
    case Waiting => task.at.pos < |ds| && ds[task.at.pos] in s.flights
    case _ => task.at.pos < |ds|
  }

  ghost predicate TaskInv(c: Config, s: State, t: nat) {
    && t in s.tasks && t in c.tasks
    && match s.tasks[t]
       case Ended(ok) => if ok then AllIn(c.Deps(c.tasks[t]), s.loaded) else Blamed(c, c.tasks[t])
       case Active(below, at, stage) =>
         var frames := s.tasks[t].Frames();
         && frames[0].target == c.tasks[t]
         && ChainOk(c, s.loaded, frames) && Leads(s, t, frames)
         && NotRan(s.ran, if stage == Rechecking then below else frames)
         && StageOk(c, s, s.tasks[t])
  }

  /** A flight has a leader, inside whose calls it is. */
  ghost predicate InCall(frames: seq<Frame>, d: TargetLabel) {
    exists k :: 1 <= k < |frames| && frames[k].target == d
  }

  ghost predicate FlightInv(s: State, d: TargetLabel) {
    d in s.flights ==> s.flights[d] in s.tasks && InCall(s.tasks[s.flights[d]].Frames(), d)
  }

  ghost predicate Inv(c: Config, s: State) {
    && s.tasks.Keys == c.tasks.Keys
    && (forall t {:trigger TaskInv(c, s, t)} :: t in s.tasks ==> TaskInv(c, s, t))
    && (forall d {:trigger FlightInv(s, d)} :: FlightInv(s, d))
    && NoDuplicates(s.ran) && forall d :: d in s.ran ==> d in s.loaded
  }

  // Chains of calls -------------------------------------------------------------------------

  /** Inner calls are for strict ancestors of the targets of outer ones. */
  lemma {:induction false} ChainReaches(c: Config, loaded: set<TargetLabel>, frames: seq<Frame>, i: nat, j: nat)
    requires c.Valid() && ChainOk(c, loaded, frames) && i < j < |frames|
    ensures Reaches(c.g, frames[j].target, frames[i].target)
    decreases j
  {
    assert FrameOk(c, loaded, frames, j - 1);
    EdgeReaches(c.g, frames[j].target, frames[j - 1].target);
    if i < j - 1 {
      ChainReaches(c, loaded, frames, i, j - 1);
      ReachesTransitive(c.g, frames[j].target, frames[j - 1].target, frames[i].target);
    }
  }

  lemma ChainGrows(c: Config, loaded: set<TargetLabel>, loaded': set<TargetLabel>, frames: seq<Frame>)
    requires ChainOk(c, loaded, frames) && loaded <= loaded'
    ensures ChainOk(c, loaded', frames)
  {
    forall k ensures FrameOk(c, loaded', frames, k) {
      assert FrameOk(c, loaded, frames, k);
    }
  }

  /** The innermost call moves on inside its loop. */
  lemma ChainMoves(c: Config, loaded: set<TargetLabel>, below: seq<Frame>, at: Frame, pos: nat)
    requires ChainOk(c, loaded, below + [at])
    requires pos <= |c.Deps(at.target)| && AllIn(c.Deps(at.target)[..pos], loaded)
    ensures ChainOk(c, loaded, below + [at.(pos := pos)])
  {
    forall k ensures FrameOk(c, loaded, below + [at.(pos := pos)], k) {
      assert FrameOk(c, loaded, below + [at], k);
    }
  }

  lemma ChainPushed(c: Config, loaded: set<TargetLabel>, frames: seq<Frame>, d: TargetLabel)
    requires ChainOk(c, loaded, frames) && |frames| > 0
    requires AtDependency(c, frames[|frames| - 1], d) && d in c.dependencies
    ensures ChainOk(c, loaded, frames + [Frame(d, 0)])
  {
    forall k ensures FrameOk(c, loaded, frames + [Frame(d, 0)], k) {
      assert FrameOk(c, loaded, frames, k);
    }
  }

  lemma OneMoreLoaded(ds: seq<TargetLabel>, pos: nat, loaded: set<TargetLabel>, loaded': set<TargetLabel>)
    requires pos < |ds| && AllIn(ds[..pos], loaded) && loaded <= loaded' && ds[pos] in loaded'
    ensures AllIn(ds[..pos + 1], loaded')
  {
    assert ds[..pos + 1] == ds[..pos] + [ds[pos]];
  }

  lemma ChainPopped(c: Config, loaded: set<TargetLabel>, frames: seq<Frame>, n: nat)
    requires ChainOk(c, loaded, frames) && n <= |frames|
    ensures ChainOk(c, loaded, frames[..n])
  {
    forall k ensures FrameOk(c, loaded, frames[..n], k) {
      assert FrameOk(c, loaded, frames, k);
    }
  }

  // Keeping it ----------------------------------------------------------------------------

  /** A step keeps what task `u` has: its flights, its calls, and that these have re-run nothing. */
  ghost predicate Respects(s: State, s': State, u: nat) {
    && s.loaded <= s'.loaded
    && (forall d :: d in s.flights && s.flights[d] == u ==> d in s'.flights && s'.flights[d] == u)
    && (forall x :: x in s'.ran ==> x in s.ran || (x in s.flights && s.flights[x] != u))
  }

  /** A task stays where it is, or is answered while it waits. */
  ghost predicate Stands(task: Task, task': Task) {
    task' == task || (task.Active? && task.stage == Waiting && task'.Active? && task'.stage.Answered?
                      && task'.below == task.below && task'.at == task.at)
  }

  lemma TaskStays(c: Config, s: State, s': State, u: nat)
    requires TaskInv(c, s, u) && Respects(s, s', u) && u in s'.tasks && Stands(s.tasks[u], s'.tasks[u])
    requires s'.tasks[u].Active? ==> StageOk(c, s', s'.tasks[u])
    ensures TaskInv(c, s', u)
  {
    if s'.tasks[u].Active? {
      var task := s.tasks[u];
      ChainGrows(c, s.loaded, s'.loaded, task.Frames());
      FramesStay(s, s', u, task.Frames());
      NotRanStays(s, s', u, task.Frames(), if task.stage == Rechecking then task.below else task.Frames());
    }
  }

  lemma FramesStay(s: State, s': State, u: nat, frames: seq<Frame>)
    requires Leads(s, u, frames) && Respects(s, s', u)
    ensures Leads(s', u, frames)
  {
    forall k ensures LeadsAt(s', u, frames, k) {
      assert LeadsAt(s, u, frames, k);
    }
  }

  lemma NotRanStays(s: State, s': State, u: nat, frames: seq<Frame>, part: seq<Frame>)
    requires Leads(s, u, frames) && Respects(s, s', u) && NotRan(s.ran, part) && part <= frames
    ensures NotRan(s'.ran, part)
  {
    forall k ensures NotRanAt(s'.ran, part, k) {
      assert NotRanAt(s.ran, part, k) && LeadsAt(s, u, frames, k);
    }
  }

  lemma StageStays(c: Config, s: State, s': State, task: Task)
    requires task.Active? && StageOk(c, s, task) && s.loaded <= s'.loaded && s.flights.Keys <= s'.flights.Keys
    ensures StageOk(c, s', task)
  {
  }

  lemma FlightStays(s: State, s': State, d: TargetLabel)
    requires FlightInv(s, d) && d in s.flights && d in s'.flights && s'.flights[d] == s.flights[d]
    requires s.flights[d] in s.tasks && s.flights[d] in s'.tasks
    requires InCall(s.tasks[s.flights[d]].Frames(), d) ==> InCall(s'.tasks[s.flights[d]].Frames(), d)
    ensures FlightInv(s', d)
  {
  }

  lemma InCallMoves(below: seq<Frame>, at: Frame, pos: nat, d: TargetLabel)
    requires InCall(below + [at], d)
    ensures InCall(below + [at.(pos := pos)], d)
  {
    var k :| 1 <= k < |below + [at]| && (below + [at])[k].target == d;
    assert (below + [at.(pos := pos)])[k].target == d;
  }

  lemma InCallGrows(frames: seq<Frame>, f: Frame, d: TargetLabel)
    requires InCall(frames, d)
    ensures InCall(frames + [f], d)
  {
    var k :| 1 <= k < |frames| && frames[k].target == d;
    assert (frames + [f])[k].target == d;
  }

  /** One task moves on within its innermost call. */
  lemma MovedKeeps(c: Config, s: State, t: nat, pos: nat, stage: Stage, s': State)
    requires c.Valid() && Inv(c, s) && t in s.tasks && s.tasks[t].Active? && stage != Rechecking
    requires s' == Moved(s, t, pos, stage).(loaded := s'.loaded) && s.loaded <= s'.loaded
    requires s.tasks[t].stage == Rechecking ==> s.tasks[t].at.target !in s.loaded
    requires pos <= |c.Deps(s.tasks[t].at.target)| && AllIn(c.Deps(s.tasks[t].at.target)[..pos], s'.loaded)
    requires StageOk(c, s', s'.tasks[t])
    ensures Inv(c, s')
  {
    var task := s.tasks[t];
    assert TaskInv(c, s, t);
    ChainGrows(c, s.loaded, s'.loaded, task.Frames());
    ChainMoves(c, s'.loaded, task.below, task.at, pos);
    MovedLeads(s, s', t, pos);
    forall u | u in s'.tasks ensures TaskInv(c, s', u) {
      assert TaskInv(c, s, u);
      if u != t {
        if s.tasks[u].Active? {
          StageStays(c, s, s', s.tasks[u]);
        }
        TaskStays(c, s, s', u);
      }
    }
    forall d ensures FlightInv(s', d) {
      assert FlightInv(s, d);
      if d in s.flights {
        if s.flights[d] == t {
          InCallMoves(task.below, task.at, pos, d);
        }
        FlightStays(s, s', d);
      }
    }
  }

  lemma MovedLeads(s: State, s': State, t: nat, pos: nat)
    requires t in s.tasks && s.tasks[t].Active? && s'.flights == s.flights && s'.ran == s.ran
    requires Leads(s, t, s.tasks[t].Frames())
    requires NotRan(s.ran, if s.tasks[t].stage == Rechecking then s.tasks[t].below else s.tasks[t].Frames())
    requires s.tasks[t].stage == Rechecking ==> s.tasks[t].at.target !in s.ran
    ensures Leads(s', t, s.tasks[t].below + [s.tasks[t].at.(pos := pos)])
    ensures NotRan(s'.ran, s.tasks[t].below + [s.tasks[t].at.(pos := pos)])
  {
    var task := s.tasks[t];
    var frames := task.below + [task.at.(pos := pos)];
    forall k ensures LeadsAt(s', t, frames, k) && NotRanAt(s'.ran, frames, k) {
      assert LeadsAt(s, t, task.Frames(), k);
      assert NotRanAt(s.ran, if task.stage == Rechecking then task.below else task.Frames(), k);
    }
  }

  /** A task opens a flight and makes the next call inside it. */
  lemma LeadKeeps(c: Config, s: State, t: nat, d: TargetLabel, s': State)
    requires c.Valid() && Inv(c, s) && t in s.tasks && s.tasks[t].Active? && s.tasks[t].stage == Asking
    requires AtDependency(c, s.tasks[t].at, d) && d !in s.flights
    requires s' == s.(tasks := s.tasks[t := Active(s.tasks[t].Frames(), Frame(d, 0), Rechecking)],
                      flights := s.flights[d := t])
    ensures Inv(c, s')
  {
    var frames := s.tasks[t].Frames();
    assert TaskInv(c, s, t) && FrameOk(c, s.loaded, frames, |frames| - 1);
    ChainPushed(c, s.loaded, frames, d);
    forall k ensures LeadsAt(s', t, frames + [Frame(d, 0)], k) {
      assert LeadsAt(s, t, frames, k);
    }
    forall u | u in s'.tasks ensures TaskInv(c, s', u) {
      assert TaskInv(c, s, u);
      if u != t {
        if s.tasks[u].Active? {
          StageStays(c, s, s', s.tasks[u]);
        }
        TaskStays(c, s, s', u);
      }
    }
    forall e ensures FlightInv(s', e) {
      assert FlightInv(s, e);
      if e == d {
        assert (frames + [Frame(d, 0)])[|frames|].target == d;
      } else if e in s.flights {
        if s.flights[e] == t {
          InCallGrows(frames, Frame(d, 0), e);
        }
        FlightStays(s, s', e);
      }
    }
  }

  /** Everything holds but what the innermost call of `t` is about, which is returning. */
  ghost predicate Returning(c: Config, s: State, t: nat, ok: bool) {
    && s.tasks.Keys == c.tasks.Keys && t in s.tasks && s.tasks[t].Active?
    && (forall u {:trigger TaskInv(c, s, u)} :: u in s.tasks && u != t ==> TaskInv(c, s, u))
    && (forall d {:trigger FlightInv(s, d)} :: FlightInv(s, d))
    && NoDuplicates(s.ran) && (forall d :: d in s.ran ==> d in s.loaded)
    && var task := s.tasks[t];
       var frames := task.Frames();
       && frames[0].target == c.tasks[t]
       && ChainOk(c, s.loaded, frames) && Leads(s, t, frames) && NotRan(s.ran, task.below)
       && (task.below != [] ==> if ok then task.at.target in s.loaded else MayFail(c, task.at.target))
       && (task.below == [] ==> if ok then AllIn(c.Deps(c.tasks[t]), s.loaded) else Blamed(c, c.tasks[t]))
  }

  lemma ReturnKeeps(c: Config, s: State, t: nat, ok: bool, s': State)
    requires c.Valid() && Returning(c, s, t, ok) && s' == Return(c, s, t, ok)
    ensures Inv(c, s')
  {
    if s.tasks[t].below == [] {
      TaskEndsKeeps(c, s, t, ok, s');
    } else {
      CallReturnsKeeps(c, s, t, ok, s');
    }
  }

  lemma TaskEndsKeeps(c: Config, s: State, t: nat, ok: bool, s': State)
    requires Returning(c, s, t, ok) && s.tasks[t].below == [] && s' == s.(tasks := s.tasks[t := Ended(ok)])
    ensures Inv(c, s')
  {
    forall u | u in s'.tasks ensures TaskInv(c, s', u) {
      if u != t {
        assert TaskInv(c, s, u);
        if s.tasks[u].Active? {
          StageStays(c, s, s', s.tasks[u]);
        }
        TaskStays(c, s, s', u);
      }
    }
    forall d ensures FlightInv(s', d) {
      assert FlightInv(s, d);
      if d in s.flights {
        FlightStays(s, s', d);
      }
    }
  }

  /** The target of the innermost call is not that of another call of the task. */
  lemma OnlyInnermost(c: Config, loaded: set<TargetLabel>, below: seq<Frame>, at: Frame)
    requires c.Valid() && ChainOk(c, loaded, below + [at])
    ensures forall k :: 0 <= k < |below| ==> below[k].target != at.target
  {
    forall k | 0 <= k < |below| ensures below[k].target != at.target {
      ChainReaches(c, loaded, below + [at], k, |below|);
    }
  }

  lemma CallReturnsKeeps(c: Config, s: State, t: nat, ok: bool, s': State)
    requires c.Valid() && Returning(c, s, t, ok) && s.tasks[t].below != [] && s' == Return(c, s, t, ok)
    ensures Inv(c, s')
  {
    var task := s.tasks[t];
    var d := task.at.target;
    OnlyInnermost(c, s.loaded, task.below, task.at);
    CallerInv(c, s, t, ok, s');
    assert LeadsAt(s, t, task.Frames(), |task.below|);
    forall u | u in s'.tasks ensures TaskInv(c, s', u) {
      if u != t {
        assert TaskInv(c, s, u);
        if s.tasks[u].Active? {
          AnsweredStage(c, s, s', s.tasks[u], d, ok);
        }
        TaskStays(c, s, s', u);
      }
    }
    forall e ensures FlightInv(s', e) {
      assert FlightInv(s, e);
      if e in s.flights && e != d {
        if s.flights[e] == t {
          InCallBelow(task.below, task.at, e);
        }
        FlightStays(s, s', e);
      }
    }
  }

  lemma InCallBelow(below: seq<Frame>, at: Frame, e: TargetLabel)
    requires InCall(below + [at], e) && at.target != e
    ensures InCall(below, e)
  {
    var k :| 1 <= k < |below + [at]| && (below + [at])[k].target == e;
    assert below[k].target == e;
  }

  /** A task that waits for `d` is answered, any other one still waits for an open flight. */
  lemma AnsweredStage(c: Config, s: State, s': State, task: Task, d: TargetLabel, ok: bool)
    requires task.Active? && StageOk(c, s, task) && s'.loaded == s.loaded && s'.flights == s.flights - {d}
    requires if ok then d in s.loaded else MayFail(c, d)
    ensures StageOk(c, s', if WaitsFor(c, task, d) then task.(stage := Answered(ok)) else task)
  {
  }

  lemma CallerInv(c: Config, s: State, t: nat, ok: bool, s': State)
    requires c.Valid() && Returning(c, s, t, ok) && s.tasks[t].below != [] && s' == Return(c, s, t, ok)
    requires forall k :: 0 <= k < |s.tasks[t].below| ==> s.tasks[t].below[k].target != s.tasks[t].at.target
    ensures TaskInv(c, s', t) && s'.tasks[t].Frames() == s.tasks[t].below
  {
    var task := s.tasks[t];
    var last := |task.below| - 1;
    var frames := task.Frames();
    assert task.below[..last] + [task.below[last]] == task.below == frames[..|task.below|];
    ChainPopped(c, s.loaded, frames, |task.below|);
    assert FrameOk(c, s.loaded, frames, last);
    forall k ensures LeadsAt(s', t, task.below, k) {
      assert LeadsAt(s, t, frames, k);
    }
  }

  // Steps ---------------------------------------------------------------------------------

  lemma RecheckKeeps(c: Config, s: State, t: nat, s': State)
    requires c.Valid() && Inv(c, s) && Taken(c, s, Recheck(t), s')
    ensures Inv(c, s')
  {
    var task := s.tasks[t];
    assert TaskInv(c, s, t);
    if task.at.target in s.loaded {
      ReturnKeeps(c, s, t, true, s');
    } else {
      assert FrameOk(c, s.loaded, task.Frames(), |task.below|);
      MovedKeeps(c, s, t, task.at.pos, Next, s');
    }
  }

  lemma AdvanceKeeps(c: Config, s: State, t: nat, s': State)
    requires c.Valid() && Inv(c, s) && Taken(c, s, Advance(t), s')
    ensures Inv(c, s')
  {
    var task := s.tasks[t];
    var ds := c.Deps(task.at.target);
    assert TaskInv(c, s, t) && FrameOk(c, s.loaded, task.Frames(), |task.below|);
    if task.at.pos >= |ds| {
      assert ds[..|ds|] == ds;
      if task.below == [] {
        ReturnKeeps(c, s, t, true, s');
      } else {
        MovedKeeps(c, s, t, task.at.pos, Executing, s');
      }
    } else if ds[task.at.pos] in s.loaded {
      OneMoreLoaded(ds, task.at.pos, s.loaded, s'.loaded);
      MovedKeeps(c, s, t, task.at.pos + 1, Next, s');
    } else {
      MovedKeeps(c, s, t, task.at.pos, Loading, s');
    }
  }

  lemma LoadKeeps(c: Config, s: State, t: nat, ok: bool, s': State)
    requires c.Valid() && Inv(c, s) && Taken(c, s, Load(t, ok), s')
    ensures Inv(c, s')
  {
    var task := s.tasks[t];
    assert TaskInv(c, s, t) && FrameOk(c, s.loaded, task.Frames(), |task.below|);
    if ok {
      LoadedKeeps(c, s, t, s');
    } else {
      MovedKeeps(c, s, t, task.at.pos, Asking, s');
    }
  }

  lemma LoadedKeeps(c: Config, s: State, t: nat, s': State)
    requires c.Valid() && Inv(c, s) && Taken(c, s, Load(t, true), s')
    ensures Inv(c, s')
  {
    var task := s.tasks[t];
    assert TaskInv(c, s, t) && FrameOk(c, s.loaded, task.Frames(), |task.below|);
    OneMoreLoaded(c.Deps(task.at.target), task.at.pos, s.loaded, s'.loaded);
    MovedKeeps(c, s, t, task.at.pos + 1, Next, s');
  }

  lemma DoKeeps(c: Config, s: State, t: nat, s': State)
    requires c.Valid() && Inv(c, s) && Taken(c, s, Do(t), s')
    ensures Inv(c, s')
  {
    var task := s.tasks[t];
    var d := c.Deps(task.at.target)[task.at.pos];
    assert TaskInv(c, s, t) && FrameOk(c, s.loaded, task.Frames(), |task.below|);
    if d in s.flights {
      MovedKeeps(c, s, t, task.at.pos, Waiting, s');
    } else {
      LeadKeeps(c, s, t, d, s');
    }
  }

  lemma ResumeKeeps(c: Config, s: State, t: nat, s': State)
    requires c.Valid() && Inv(c, s) && Taken(c, s, Resume(t), s')
    ensures Inv(c, s')
  {
    var task := s.tasks[t];
    var ds := c.Deps(task.at.target);
    assert TaskInv(c, s, t) && FrameOk(c, s.loaded, task.Frames(), |task.below|);
    if task.stage.ok {
      OneMoreLoaded(ds, task.at.pos, s.loaded, s'.loaded);
      MovedKeeps(c, s, t, task.at.pos + 1, Next, s');
    } else {
      BlameSpreads(c, ds[task.at.pos], task.at.target);
      FrontNotRan(s.ran, task.below, task.at);
      ReturnKeeps(c, s, t, false, s');
    }
  }

  lemma BlameSpreads(c: Config, d: TargetLabel, l: TargetLabel)
    requires c.Valid() && l in c.dependencies && d in c.dependencies[l] && MayFail(c, d)
    ensures Blamed(c, l)
  {
    EdgeReaches(c.g, d, l);
    if d !in c.failing {
      var f :| f in c.failing && Reaches(c.g, f, d);
      ReachesTransitive(c.g, f, d, l);
    }
  }

  lemma FrontNotRan(ran: seq<TargetLabel>, below: seq<Frame>, at: Frame)
    requires NotRan(ran, below + [at])
    ensures NotRan(ran, below)
  {
    forall k ensures NotRanAt(ran, below, k) {
      assert NotRanAt(ran, below + [at], k);
    }
  }

  lemma ExecuteKeeps(c: Config, s: State, t: nat, ok: bool, s': State)
    requires c.Valid() && Inv(c, s) && Taken(c, s, Execute(t, ok), s')
    ensures Inv(c, s')
  {
    var task := s.tasks[t];
    assert TaskInv(c, s, t);
    FrontNotRan(s.ran, task.below, task.at);
    if ok {
      RunLoads(c, s, t, s.(loaded := s.loaded + {task.at.target}, ran := s.ran + [task.at.target]));
      ReturnKeeps(c, s.(loaded := s.loaded + {task.at.target}, ran := s.ran + [task.at.target]), t, true, s');
    } else {
      ReturnKeeps(c, s, t, false, s');
    }
  }

  /** The command of the innermost flight has succeeded, for the first time. */
  lemma RunLoads(c: Config, s: State, t: nat, s': State)
    requires c.Valid() && Inv(c, s) && t in s.tasks && s.tasks[t].Active? && s.tasks[t].stage == Executing
    requires s' == s.(loaded := s.loaded + {s.tasks[t].at.target}, ran := s.ran + [s.tasks[t].at.target])
    ensures Returning(c, s', t, true)
  {
    var task := s.tasks[t];
    var frames := task.Frames();
    assert TaskInv(c, s, t);
    OnlyInnermost(c, s.loaded, task.below, task.at);
    ChainGrows(c, s.loaded, s'.loaded, frames);
    assert LeadsAt(s, t, frames, |task.below|) && NotRanAt(s.ran, frames, |task.below|);
    forall k ensures LeadsAt(s', t, frames, k) && NotRanAt(s'.ran, task.below, k) {
      assert LeadsAt(s, t, frames, k) && NotRanAt(s.ran, frames, k);
    }
    forall u | u in s'.tasks && u != t ensures TaskInv(c, s', u) {
      assert TaskInv(c, s, u);
      if s.tasks[u].Active? {
        StageStays(c, s, s', s.tasks[u]);
      }
      TaskStays(c, s, s', u);
    }
    forall d ensures FlightInv(s', d) {
      assert FlightInv(s, d);
    }
  }

  lemma StepKeeps(c: Config, s: State, step: Step, s': State)
    requires c.Valid() && Inv(c, s) && Taken(c, s, step, s')
    ensures Inv(c, s')
  {
    match step
    case Recheck(t) => RecheckKeeps(c, s, t, s');
    case Advance(t) => AdvanceKeeps(c, s, t, s');
    case Load(t, ok) => LoadKeeps(c, s, t, ok, s');
    case Do(t) => DoKeeps(c, s, t, s');
    case Resume(t) => ResumeKeeps(c, s, t, s');
    case Execute(t, ok) => ExecuteKeeps(c, s, t, ok, s');
  }

  lemma InitKeeps(c: Config, loaded: set<TargetLabel>)
    requires c.Valid()
    ensures Inv(c, Init(c, loaded))
  {
    var s := Init(c, loaded);
    forall t | t in s.tasks ensures TaskInv(c, s, t) {
      var frames := s.tasks[t].Frames();
      forall k ensures FrameOk(c, loaded, frames, k) && LeadsAt(s, t, frames, k) && NotRanAt([], frames, k) {
      }
    }
  }

  // Runs ----------------------------------------------------------------------------------

  ghost predicate CanFollow(c: Config, s: State, s': State) {
    exists step :: Taken(c, s, step, s')
  }

  ghost predicate StepTaken(c: Config, run: seq<State>, i: int) {
    0 <= i < |run| - 1 ==> CanFollow(c, run[i], run[i + 1])
  }

  ghost predicate IsRun(c: Config, run: seq<State>) {
    |run| >= 1 && run[0] == Init(c, run[0].loaded) && forall i :: StepTaken(c, run, i)
  }

  lemma {:induction false} RunInv(c: Config, run: seq<State>, i: nat)
    requires c.Valid() && IsRun(c, run) && i < |run|
    ensures Inv(c, run[i])
  {
    if i == 0 {
      InitKeeps(c, run[0].loaded);
    } else {
      RunInv(c, run, i - 1);
      assert StepTaken(c, run, i - 1);
      var step :| Taken(c, run[i - 1], step, run[i]);
      StepKeeps(c, run[i - 1], step, run[i]);
    }
  }

  // Every re-run is answered ---------------------------------------------------------------

  /** A task waits only for a flight that is open, and for a strict ancestor of all that it leads. */
  lemma WaitsGoUp(c: Config, s: State, t: nat, d: TargetLabel, m: TargetLabel)
    requires c.Valid() && Inv(c, s) && t in s.tasks && WaitsFor(c, s.tasks[t], d)
    requires m in s.flights && s.flights[m] == t
    ensures d in s.flights && Reaches(c.g, d, m)
  {
    var task := s.tasks[t];
    var frames := task.Frames();
    assert TaskInv(c, s, t) && FlightInv(s, m) && FrameOk(c, s.loaded, frames, |task.below|);
    var k :| 1 <= k < |frames| && frames[k].target == m;
    EdgeReaches(c.g, d, task.at.target);
    if k < |task.below| {
      ChainReaches(c, s.loaded, frames, k, |task.below|);
      ReachesTransitive(c.g, d, task.at.target, m);
    }
  }

  /** A task that is neither done nor waiting can move. */
  lemma TaskMoves(c: Config, s: State, t: nat) returns (step: Step)
    requires Inv(c, s) && t in s.tasks && s.tasks[t].Active? && s.tasks[t].stage != Waiting
    ensures Enabled(c, s, step)
  {
    assert TaskInv(c, s, t);
    match s.tasks[t].stage
    case Rechecking => step := Recheck(t);
    case Next => step := Advance(t);
    case Loading => step := Load(t, false);
    case Asking => step := Do(t);
    case Answered(_) => step := Resume(t);
    case Executing => step := Execute(t, true);
  }

  /** Unless all tasks are done one of them can move, so no circle of waits comes up. */
  lemma Progress(c: Config, s: State, t: nat) returns (step: Step)
    requires c.Valid() && Inv(c, s) && t in s.tasks && s.tasks[t].Active?
    ensures Enabled(c, s, step)
  {
    if s.tasks[t].stage != Waiting {
      step := TaskMoves(c, s, t);
    } else {
      var task := s.tasks[t];
      assert TaskInv(c, s, t);
      var m := Minimal(c.g, s.flights.Keys, c.Deps(task.at.target)[task.at.pos]);
      var leader := s.flights[m];
      assert FlightInv(s, m) && TaskInv(c, s, leader);
      if s.tasks[leader].stage == Waiting {
        var at := s.tasks[leader].at;
        WaitsGoUp(c, s, leader, c.Deps(at.target)[at.pos], m);
        assert false;
      }
      step := TaskMoves(c, s, leader);
    }
  }

  ghost predicate Stuck(c: Config, s: State) {
    forall step: Step :: !Enabled(c, s, step)
  }

  /**
   When no task can move any more, every task has returned: no wait for the re-run of another
   task is left without its report. A task that succeeds has all dependencies of its target
   loaded; one that fails has a strict ancestor whose command may fail. Each command has been
   re-run successfully at most once.
   */
  lemma FollowersAnswered(c: Config, run: seq<State>, i: nat, t: nat)
    requires c.Valid() && IsRun(c, run) && i < |run| && t in c.tasks
    ensures t in run[i].tasks && NoDuplicates(run[i].ran)
    ensures Stuck(c, run[i]) ==> run[i].tasks[t].Ended?
    ensures run[i].tasks[t] == Ended(true) ==> AllIn(c.Deps(c.tasks[t]), run[i].loaded)
    ensures run[i].tasks[t] == Ended(false) ==> Blamed(c, c.tasks[t])
  {
    RunInv(c, run, i);
    assert TaskInv(c, run[i], t);
    if run[i].tasks[t].Active? {
      var step := Progress(c, run[i], t);
      assert !Stuck(c, run[i]);
    }
  }

  // What a run has done ---------------------------------------------------------------------

  /** Step `i` of the run is `step`. */
  ghost predicate StepAt(c: Config, run: seq<State>, i: int, step: Step) {
    0 <= i < |run| - 1 && Taken(c, run[i], step, run[i + 1])
  }

  /** The command of `l` is run, in a flight. */
  predicate Executes(s: State, step: Step, l: TargetLabel, ok: bool) {
    && step.t in s.tasks && s.tasks[step.t].Active?
    && step == Execute(step.t, ok) && s.tasks[step.t].at.target == l
  }

  /** The outputs of `l` come from the cache, or its command succeeds. */
  predicate Yields(c: Config, s: State, step: Step, l: TargetLabel)
    requires Enabled(c, s, step)
  {
    (step == Load(step.t, true) && AtDependency(c, s.tasks[step.t].at, l)) || Executes(s, step, l, true)
  }

  ghost predicate YieldsAt(c: Config, run: seq<State>, i: int, step: Step, l: TargetLabel) {
    StepAt(c, run, i, step) && Yields(c, run[i], step, l)
  }

  ghost predicate ExecutesAt(c: Config, run: seq<State>, i: int, step: Step, l: TargetLabel, ok: bool) {
    StepAt(c, run, i, step) && Executes(run[i], step, l, ok)
  }

  lemma RecordsStep(c: Config, s: State, step: Step, s': State, l: TargetLabel)
    requires Taken(c, s, step, s')
    ensures l in s'.loaded <==> l in s.loaded || Yields(c, s, step, l)
    ensures l in s'.ran <==> l in s.ran || Executes(s, step, l, true)
  {
  }

  lemma StepBefore(c: Config, run: seq<State>, i: nat) returns (k: nat, step: Step)
    requires IsRun(c, run) && 0 < i < |run|
    ensures k == i - 1 && StepAt(c, run, k, step)
  {
    k := i - 1;
    assert StepTaken(c, run, k);
    step :| Taken(c, run[k], step, run[i]);
  }

  lemma {:induction false} YieldedBy(c: Config, run: seq<State>, i: nat, l: TargetLabel) returns (k: nat, step: Step)
    requires IsRun(c, run) && i < |run| && l in run[i].loaded && l !in run[0].loaded
    ensures k < i && YieldsAt(c, run, k, step, l)
  {
    k, step := StepBefore(c, run, i);
    RecordsStep(c, run[k], step, run[i], l);
    if l in run[k].loaded {
      k, step := YieldedBy(c, run, k, l);
    }
  }

  lemma {:induction false} RanBy(c: Config, run: seq<State>, i: nat, l: TargetLabel) returns (k: nat, step: Step)
    requires IsRun(c, run) && i < |run| && l in run[i].ran
    ensures k < i && ExecutesAt(c, run, k, step, l, true)
  {
    k, step := StepBefore(c, run, i);
    RecordsStep(c, run[k], step, run[i], l);
    if l in run[k].ran {
      k, step := RanBy(c, run, k, l);
    }
  }

  lemma {:induction false} RecordsStay(c: Config, run: seq<State>, k: nat, i: nat)
    requires IsRun(c, run) && k <= i < |run|
    ensures run[k].loaded <= run[i].loaded && forall l :: l in run[k].ran ==> l in run[i].ran
  {
    if k < i {
      RecordsStay(c, run, k, i - 1);
      var last, step := StepBefore(c, run, i);
      forall l ensures (l in run[last].loaded ==> l in run[i].loaded) && (l in run[last].ran ==> l in run[i].ran) {
        RecordsStep(c, run[last], step, run[i], l);
      }
    }
  }

  /**
   Loaded is what was loaded at the start, what came from the cache, and what a command that
   succeeded has made; a command that failed loads nothing. What counts as re-run is exactly
   what succeeded.
   */
  lemma LoadedByStep(c: Config, run: seq<State>, i: nat, l: TargetLabel)
    requires IsRun(c, run) && i < |run|
    ensures l in run[i].loaded <==>
              l in run[0].loaded || exists k, step :: 0 <= k < i && YieldsAt(c, run, k, step, l)
    ensures l in run[i].ran <==> exists k, step :: 0 <= k < i && ExecutesAt(c, run, k, step, l, true)
  {
    RecordsStay(c, run, 0, i);
    if l in run[i].loaded && l !in run[0].loaded {
      var k, step := YieldedBy(c, run, i, l);
    }
    if l in run[i].ran {
      var k, step := RanBy(c, run, i, l);
    }
    forall k, step | 0 <= k < i && YieldsAt(c, run, k, step, l) ensures l in run[i].loaded {
      RecordsStep(c, run[k], step, run[k + 1], l);
      RecordsStay(c, run, k + 1, i);
    }
    forall k, step | 0 <= k < i && ExecutesAt(c, run, k, step, l, true) ensures l in run[i].ran {
      RecordsStep(c, run[k], step, run[k + 1], l);
      RecordsStay(c, run, k + 1, i);
    }
  }

  /** The commands that have failed in the run. */
  ghost function Failed(c: Config, run: seq<State>): set<TargetLabel> {
    set l | l in c.failing && exists k, step :: ExecutesAt(c, run, k, step, l, false)
  }

  /** The configuration in which only those commands may fail that did. */
  ghost function Hindsight(c: Config, run: seq<State>): Config {
    c.(failing := Failed(c, run))
  }

  lemma StepInHindsight(c: Config, c': Config, s: State, step: Step, s': State)
    requires Taken(c, s, step, s') && c' == c.(failing := c'.failing)
    requires step.Execute? && !step.ok ==> s.tasks[step.t].at.target in c'.failing
    ensures Taken(c', s, step, s')
  {
    forall tasks: map<nat, Task>, d, ok ensures Deliver(c', tasks, d, ok) == Deliver(c, tasks, d, ok) {
    }
  }

  lemma RunInHindsight(c: Config, run: seq<State>)
    requires c.Valid() && IsRun(c, run)
    ensures Hindsight(c, run).Valid() && IsRun(Hindsight(c, run), run)
  {
    var c' := Hindsight(c, run);
    forall i ensures StepTaken(c', run, i) {
      if 0 <= i < |run| - 1 {
        var k, step := StepBefore(c, run, i + 1);
        if step.Execute? && !step.ok {
          assert ExecutesAt(c, run, i, step, run[i].tasks[step.t].at.target, false);
        }
        StepInHindsight(c, c', run[i], step, run[i + 1]);
      }
    }
  }

  /** A task fails only after the command of a strict ancestor of its target has failed. */
  lemma FailuresHappened(c: Config, run: seq<State>, i: nat, t: nat)
    requires c.Valid() && IsRun(c, run) && i < |run| && t in c.tasks
    ensures t in run[i].tasks
    ensures run[i].tasks[t] == Ended(false) ==>
              exists k, step, f :: 0 <= k < i && ExecutesAt(c, run, k, step, f, false) && Reaches(c.g, f, c.tasks[t])
  {
    FollowersAnswered(c, run, i, t);
    if run[i].tasks[t] == Ended(false) {
      var past := run[..i + 1];
      forall k ensures StepTaken(c, past, k) {
        assert StepTaken(c, run, k);
      }
      RunInHindsight(c, past);
      FollowersAnswered(Hindsight(c, past), past, i, t);
      var f :| f in Failed(c, past) && Reaches(c.g, f, c.tasks[t]);
      var k, step :| ExecutesAt(c, past, k, step, f, false);
      assert ExecutesAt(c, run, k, step, f, false);
    }
  }

  // Every run comes to an end -----------------------------------------------------------------

  /** The steps of the loop from a position on, with those of the re-runs that it leads. */
  ghost function LoopSteps(c: Config, l: TargetLabel, pos: nat): nat
    requires c.Valid()
    decreases Ancestors(c.g, l), 1, |c.Deps(l)| - pos
  {
    if pos >= |c.Deps(l)| then 0
    else
      var d := c.Deps(l)[pos];
      AncestorsShrink(c.g, d, l);
      5 + RerunSteps(c, d) + LoopSteps(c, l, pos + 1)
  }

  ghost function RerunSteps(c: Config, d: TargetLabel): nat
    requires c.Valid()
    decreases Ancestors(c.g, d), 2
  {
    3 + LoopSteps(c, d, 0)
  }

  ghost function CallSteps(c: Config, f: Frame, stage: Stage): nat
    requires c.Valid()
  {
    var rest := LoopSteps(c, f.target, f.pos + 1) + 2;
    var rerun := if f.pos < |c.Deps(f.target)| then RerunSteps(c, c.Deps(f.target)[f.pos]) else 0;
    match stage
    case Rechecking => LoopSteps(c, f.target, f.pos) + 3
    case Next => LoopSteps(c, f.target, f.pos) + 2
    case Loading => rest + 4 + rerun
    case Asking => rest + 3 + rerun
    case Waiting => rest + 2
    case Answered(_) => rest + 1
    case Executing => 1
  }

  /** The calls that wait for the flights they lead. */
  ghost function BelowSteps(c: Config, frames: seq<Frame>): nat
    requires c.Valid()
  {
    if frames == [] then 0
    else BelowSteps(c, frames[..|frames| - 1]) + CallSteps(c, frames[|frames| - 1], Waiting)
  }

  ghost function TaskSteps(c: Config, task: Task): nat
    requires c.Valid()
  {
    if task.Ended? then 0 else BelowSteps(c, task.below) + CallSteps(c, task.at, task.stage)
  }

  ghost function TasksSteps(c: Config, tasks: map<nat, Task>): (left: map<nat, nat>)
    requires c.Valid()
    ensures left.Keys == tasks.Keys && forall t :: t in left ==> left[t] == TaskSteps(c, tasks[t])
  {
    map t | t in tasks :: TaskSteps(c, tasks[t])
  }

  ghost function StepsLeft(c: Config, s: State): nat
    requires c.Valid()
  {
    Sum(TasksSteps(c, s.tasks))
  }

  /** Task `t` has less to do, and no other task has more. */
  ghost predicate Lighter(c: Config, s: State, s': State, t: nat)
    requires c.Valid()
  {
    && t in s.tasks && s'.tasks.Keys == s.tasks.Keys
    && TaskSteps(c, s'.tasks[t]) < TaskSteps(c, s.tasks[t])
    && forall u :: u in s.tasks && u != t ==> TaskSteps(c, s'.tasks[u]) <= TaskSteps(c, s.tasks[u])
  }

  lemma LighterDrops(c: Config, s: State, s': State, t: nat)
    requires c.Valid() && Lighter(c, s, s', t)
    ensures StepsLeft(c, s') < StepsLeft(c, s)
  {
    SumDrops(TasksSteps(c, s'.tasks), TasksSteps(c, s.tasks), t, 1);
  }

  lemma MovedLighter(c: Config, s: State, t: nat, pos: nat, stage: Stage, s': State)
    requires c.Valid() && t in s.tasks && s.tasks[t].Active? && s'.tasks == Moved(s, t, pos, stage).tasks
    requires CallSteps(c, s.tasks[t].at.(pos := pos), stage) < CallSteps(c, s.tasks[t].at, s.tasks[t].stage)
    ensures Lighter(c, s, s', t)
  {
  }

  lemma ReturnLighter(c: Config, s: State, t: nat, ok: bool, s': State)
    requires c.Valid() && t in s.tasks && s.tasks[t].Active? && s'.tasks == Return(c, s, t, ok).tasks
    ensures Lighter(c, s, s', t)
  {
    forall u | u in s.tasks && u != t ensures TaskSteps(c, s'.tasks[u]) <= TaskSteps(c, s.tasks[u]) {
      if s.tasks[t].below != [] {
        AnswerLighter(c, s.tasks[u], s'.tasks[u]);
      }
    }
  }

  lemma AnswerLighter(c: Config, task: Task, task': Task)
    requires c.Valid() && Stands(task, task')
    ensures TaskSteps(c, task') <= TaskSteps(c, task)
  {
  }

  lemma LeadLighter(c: Config, s: State, t: nat, d: TargetLabel, s': State)
    requires c.Valid() && t in s.tasks && s.tasks[t].Active? && s.tasks[t].stage == Asking
    requires AtDependency(c, s.tasks[t].at, d)
    requires s'.tasks == s.tasks[t := Active(s.tasks[t].Frames(), Frame(d, 0), Rechecking)]
    ensures Lighter(c, s, s', t)
  {
    var task := s.tasks[t];
    assert task.Frames()[..|task.below|] == task.below;
  }

  lemma LoopLighter(c: Config, s: State, step: Step, s': State)
    requires c.Valid() && Taken(c, s, step, s') && (step.Advance? || step.Load?)
    ensures Lighter(c, s, s', step.t)
  {
    var task := s.tasks[step.t];
    var ds, pos := c.Deps(task.at.target), task.at.pos;
    match step
    case Advance(t) =>
      if pos < |ds| && ds[pos] in s.loaded {
        MovedLighter(c, s, t, pos + 1, Next, s');
      } else if pos < |ds| {
        MovedLighter(c, s, t, pos, Loading, s');
      } else if task.below == [] {
        ReturnLighter(c, s, t, true, s');
      } else {
        MovedLighter(c, s, t, pos, Executing, s');
      }
    case Load(t, ok) =>
      if ok {
        MovedLighter(c, s, t, pos + 1, Next, s');
      } else {
        MovedLighter(c, s, t, pos, Asking, s');
      }
    case _ =>
  }

  lemma FlightLighter(c: Config, s: State, step: Step, s': State)
    requires c.Valid() && Taken(c, s, step, s') && (step.Recheck? || step.Do?)
    ensures Lighter(c, s, s', step.t)
  {
    var task := s.tasks[step.t];
    match step
    case Recheck(t) =>
      if task.at.target in s.loaded {
        ReturnLighter(c, s, t, true, s');
      } else {
        MovedLighter(c, s, t, task.at.pos, Next, s');
      }
    case Do(t) =>
      var d := c.Deps(task.at.target)[task.at.pos];
      if d in s.flights {
        MovedLighter(c, s, t, task.at.pos, Waiting, s');
      } else {
        LeadLighter(c, s, t, d, s');
      }
    case _ =>
  }

  lemma AnswerTakenLighter(c: Config, s: State, step: Step, s': State)
    requires c.Valid() && Taken(c, s, step, s') && (step.Resume? || step.Execute?)
    ensures Lighter(c, s, s', step.t)
  {
    var task := s.tasks[step.t];
    match step
    case Resume(t) =>
      if task.stage.ok {
        MovedLighter(c, s, t, task.at.pos + 1, Next, s');
      } else {
        ReturnLighter(c, s, t, false, s');
      }
    case Execute(t, ok) => ReturnLighter(c, s, t, ok, s');
    case _ =>
  }

  /** Every step uses up some of the steps that are left, whatever fails. */
  lemma StepsDrop(c: Config, s: State, s': State)
    requires c.Valid() && CanFollow(c, s, s')
    ensures StepsLeft(c, s') < StepsLeft(c, s)
  {
    var step :| Taken(c, s, step, s');
    if step.Advance? || step.Load? {
      LoopLighter(c, s, step, s');
    } else if step.Recheck? || step.Do? {
      FlightLighter(c, s, step, s');
    } else {
      AnswerTakenLighter(c, s, step, s');
    }
    LighterDrops(c, s, s', step.t);
  }

  /** No interleaving of the tasks takes more steps than StepsLeft at its start. */
  lemma {:induction false} RerunsEnd(c: Config, run: seq<State>, i: nat)
    requires c.Valid() && i < |run| && forall k :: StepTaken(c, run, k)
    ensures i + StepsLeft(c, run[i]) <= StepsLeft(c, run[0])
  {
    if i > 0 {
      RerunsEnd(c, run, i - 1);
      assert StepTaken(c, run, i - 1);
      StepsDrop(c, run[i - 1], run[i]);
    }
  }
}
