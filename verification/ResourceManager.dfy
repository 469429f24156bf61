/**
 Starting and tearing down resources (internal/execution/resource_manager.go) as a state
 machine. Every step is what one goroutine does while it holds the manager's mutex or the
 lock of the singleflight group; tasks, starts and teardown interleave freely.
 */
module ResourceManagers {
  import opened Results
  import opened Labels
  import opened Digraphs
  import opened Sums

  /**
   `dependencies` and `needs` list the resources a resource or a task depends on, with
   aliases resolved, so a dependency is an ancestor in the build graph.
   */
  datatype Config = Config(
    g: Digraph,
    dependencies: map<TargetLabel, seq<TargetLabel>>,
    needs: map<nat, seq<TargetLabel>>)
  {
    ghost predicate Valid() {
      && (forall r, d :: r in dependencies && d in dependencies[r] ==> d in dependencies && Reaches(g, d, r))
      && (forall t, d :: t in needs && d in needs[t] ==> d in dependencies)
    }

    function Needs(a: Asker): seq<TargetLabel> {
      match a
      case Task(t) => if t in needs then needs[t] else []
      case Start(r) => if r in dependencies then dependencies[r] else []
    }
  }

  /** Who calls ensureStarted: a task for its target, or the start of a resource. */
  datatype Asker = Task(id: nat) | Start(r: TargetLabel)

  /** One call of ensureStarted as its caller sees it. */
  datatype Ask = Checking | Missed | Joined | Answered(ok: bool)

  /** The loop over the dependencies: a call for each one, in order. */
  datatype Loop = Loop(pos: nat, ask: Ask)

  /** The singleflight call of a resource. */
  datatype Phase =
    | NoFlight
    | Opened
    | Rechecked
    | Refused
    | Starting
    | Registered
    | Upping
    | Finishing(ok: bool)
    | Closing(ok: bool)

  datatype Teardown = Idle | Waiting | Downing(rest: seq<TargetLabel>)

  /** `registered`, `ups`, `downs`, `snapshotTaken` and `faults` record what has happened so far. */
  datatype Manager = Manager(
    phase: map<TargetLabel, Phase>,
    loops: map<Asker, Loop>,
    ended: map<nat, bool>,
    results: map<TargetLabel, bool>,
    started: seq<TargetLabel>,
    activeStarts: nat,
    tearingDown: bool,
    teardown: Teardown,
    registered: seq<TargetLabel>,
    ups: seq<TargetLabel>,
    downs: seq<TargetLabel>,
    snapshotTaken: bool,
    faults: set<TargetLabel>)
  {
    /** A recorded nil start result. */
    predicate Ok(r: TargetLabel) {
      r in results && results[r]
    }

    predicate Active(r: TargetLabel) {
      r in phase && (phase[r].Starting? || phase[r].Registered? || phase[r].Upping? || phase[r].Finishing?)
    }

    function ActiveSet(): set<TargetLabel> {
      set r | r in phase && Active(r)
    }
  }

  function Init(c: Config): Manager {
    Manager(map r | r in c.dependencies :: NoFlight, map t | t in c.needs :: Task(t) := Loop(0, Checking),
            map[], map[], [], 0, false, Idle, [], [], [], false, {})
  }

  /** The resource that a loop is asking for. */
  predicate Asks(c: Config, s: Manager, a: Asker, r: TargetLabel) {
    a in s.loops && s.loops[a].pos < |c.Needs(a)| && c.Needs(a)[s.loops[a].pos] == r
  }

  datatype Step =
    | Check(a: Asker, r: TargetLabel)
    | Do(a: Asker, r: TargetLabel)
    | Recheck(r: TargetLabel)
    | Begin(r: TargetLabel)
    | Refuse(r: TargetLabel)
    | Advance(a: Asker, r: TargetLabel)
    | Complete(a: Asker)
    | RunUp(r: TargetLabel, prepared: bool)
    | UpReturns(r: TargetLabel, ok: bool)
    | Finish(r: TargetLabel)
    | Close(r: TargetLabel)
    | BeginTeardown
    | Snapshot
    | Down
    | EndTeardown

  predicate Enabled(c: Config, s: Manager, step: Step) {
    match step
    case Check(a, r) => Asks(c, s, a, r) && s.loops[a].ask == Checking
    case Do(a, r) => Asks(c, s, a, r) && s.loops[a].ask == Missed && r in s.phase
    case Recheck(r) => r in s.phase && s.phase[r] == Opened
    case Begin(r) => r in s.phase && s.phase[r] == Rechecked
    case Refuse(r) => r in s.phase && s.phase[r] == Refused
    case Advance(a, r) => Asks(c, s, a, r) && s.loops[a].ask.Answered?
    case Complete(a) => a in s.loops && s.loops[a].pos == |c.Needs(a)|
    case RunUp(r, _) => r in s.phase && s.phase[r] == Registered
    case UpReturns(r, _) => r in s.phase && s.phase[r] == Upping
    case Finish(r) => r in s.phase && s.phase[r].Finishing? && s.activeStarts > 0
    case Close(r) => r in s.phase && s.phase[r].Closing?
    case BeginTeardown => s.teardown == Idle
    case Snapshot => s.teardown == Waiting && s.activeStarts == 0
    case Down => s.teardown.Downing? && s.teardown.rest != []
    case EndTeardown => s.teardown == Downing([])
  }

  /** What waiting callers get when the flight of `r` closes. */
  function Delivered(c: Config, s: Manager, r: TargetLabel, ok: bool): map<Asker, Loop> {
    map a | a in s.loops ::
      if Asks(c, s, a, r) && s.loops[a].ask == Joined then s.loops[a].(ask := Answered(ok)) else s.loops[a]
  }

  function Apply(c: Config, s: Manager, step: Step): Manager
    requires Enabled(c, s, step)
  {
    match step
    case Check(a, r) =>
      s.(loops := s.loops[a := s.loops[a].(ask := if r in s.results then Answered(s.results[r]) else Missed)])
    case Do(a, r) =>
      s.(loops := s.loops[a := s.loops[a].(ask := Joined)],
         phase := if s.phase[r] == NoFlight then s.phase[r := Opened] else s.phase)
    case Recheck(r) =>
      s.(phase := s.phase[r := if r in s.results then Closing(s.results[r]) else Rechecked])
    case Begin(r) =>
      if s.tearingDown then s.(phase := s.phase[r := Refused])
      else s.(phase := s.phase[r := Starting], activeStarts := s.activeStarts + 1,
              loops := s.loops[Start(r) := Loop(0, Checking)])
    case Refuse(r) => s.(phase := s.phase[r := Closing(false)], results := s.results[r := false])
    case Advance(a, r) =>
      if s.loops[a].ask.ok then s.(loops := s.loops[a := Loop(s.loops[a].pos + 1, Checking)])
      else EndLoop(s, a, false)
    case Complete(a) => EndLoop(s, a, true)
    case RunUp(r, prepared) =>
      if prepared then s.(phase := s.phase[r := Upping], ups := s.ups + [r])
      else s.(phase := s.phase[r := Finishing(false)], faults := s.faults + {r})
    case UpReturns(r, ok) =>
      s.(phase := s.phase[r := Finishing(ok)], faults := if ok then s.faults else s.faults + {r})
    case Finish(r) =>
      s.(phase := s.phase[r := Closing(s.phase[r].ok)], results := s.results[r := s.phase[r].ok],
         activeStarts := s.activeStarts - 1)
    case Close(r) => s.(phase := s.phase[r := NoFlight], loops := Delivered(c, s, r, s.phase[r].ok))
    case BeginTeardown => s.(teardown := Waiting, tearingDown := true)
    case Snapshot => s.(teardown := Downing(s.started), started := [], snapshotTaken := true)
    case Down =>
      var last := |s.teardown.rest| - 1;
      s.(teardown := Downing(s.teardown.rest[..last]), downs := s.downs + [s.teardown.rest[last]])
    case EndTeardown => s.(teardown := Idle)
  }

  ghost predicate Taken(c: Config, s: Manager, step: Step, s': Manager) {
    Enabled(c, s, step) && s' == Apply(c, s, step)
  }

  /** A finished loop ends the task's call, or leads the start on to registration. */
  function EndLoop(s: Manager, a: Asker, ok: bool): Manager {
    var rest := s.(loops := s.loops - {a});
    match a
    case Task(t) => rest.(ended := s.ended[t := ok])
    case Start(r) =>
      if ok then rest.(phase := s.phase[r := Registered], started := s.started + [r], registered := s.registered + [r])
      else rest.(phase := s.phase[r := Finishing(false)])
  }

  // The invariant -------------------------------------------------------------------------

  ghost predicate AllOk(s: Manager, rs: seq<TargetLabel>) {
    forall d :: d in rs ==> s.Ok(d)
  }

  /** What the phase of a resource says about its result, registration and up command. */
  ghost predicate ResourceInv(c: Config, s: Manager, r: TargetLabel) {
    && r in s.phase && r in c.dependencies
    && (match s.phase[r]
        case NoFlight => r in s.registered ==> r in s.results
        case Opened => r in s.registered ==> r in s.results
        case Rechecked => r !in s.results && r !in s.registered
        case Refused => r !in s.results && r !in s.registered
        case Starting => r !in s.results && r !in s.registered
        case Registered => r !in s.results && r in s.registered && r !in s.ups
        case Upping => r !in s.results && r in s.registered && r in s.ups
        case Finishing(ok) => r !in s.results && (ok ==> r in s.ups)
        case Closing(ok) => r in s.results && s.results[r] == ok)
    && (r in s.ups ==> r in s.registered)
    && (r in s.registered ==> AllOk(s, c.dependencies[r]))
    && (s.Ok(r) ==> r in s.ups)
    && (s.phase[r].Starting? <==> Start(r) in s.loops)
  }

  ghost predicate LoopInv(c: Config, s: Manager, a: Asker) {
    && a in s.loops
    && s.loops[a].pos <= |c.Needs(a)|
    && AllOk(s, c.Needs(a)[..s.loops[a].pos])
    && (s.loops[a].pos < |c.Needs(a)| ==>
        var r := c.Needs(a)[s.loops[a].pos];
        match s.loops[a].ask
        case Joined => r in s.phase && s.phase[r] != NoFlight
        case Answered(ok) => r in s.results && s.results[r] == ok
        case _ => r in s.phase)
    && (s.loops[a].pos == |c.Needs(a)| ==> s.loops[a].ask == Checking)
    && (a.Start? ==> a.r in s.phase && s.phase[a.r] == Starting)
  }

  ghost predicate ResourcesInv(c: Config, s: Manager) {
    && s.phase.Keys == c.dependencies.Keys
    && forall r {:trigger ResourceInv(c, s, r)} :: r in s.phase ==> ResourceInv(c, s, r)
  }

  ghost predicate LoopsInv(c: Config, s: Manager) {
    forall a {:trigger LoopInv(c, s, a)} :: a in s.loops ==> LoopInv(c, s, a)
  }

  /** Each at most once, after everything it depends on. */
  ghost predicate OrderInv(c: Config, s: Manager) {
    && NoDuplicates(s.registered) && NoDuplicates(s.ups)
    && (forall r :: r in s.ups ==> r in s.registered)
    && (forall r :: r in s.registered ==> r in c.dependencies)
    && forall i {:trigger DependenciesBefore(c, s.registered, i)} :: DependenciesBefore(c, s.registered, i)
  }

  ghost predicate DependenciesBefore(c: Config, registered: seq<TargetLabel>, i: int) {
    0 <= i < |registered| ==> forall d :: d in c.Needs(Start(registered[i])) ==> d in registered[..i]
  }

  function Reversed(rs: seq<TargetLabel>): (r: seq<TargetLabel>)
    ensures |r| == |rs|
  {
    if rs == [] then [] else Reversed(rs[1..]) + [rs[0]]
  }

  /** Down commands already run, in reverse order of registration. */
  ghost predicate DownInv(s: Manager) {
    && s.activeStarts == |s.ActiveSet()|
    && (s.teardown != Idle ==> s.tearingDown)
    && (!s.snapshotTaken ==> s.started == s.registered && s.downs == [] && !s.teardown.Downing?)
    && (s.snapshotTaken ==> s.started == [] && s.tearingDown && s.activeStarts == 0)
    && (s.snapshotTaken ==>
        if s.teardown.Downing? then
          |s.teardown.rest| <= |s.registered| && s.teardown.rest == s.registered[..|s.teardown.rest|]
          && s.downs == Reversed(s.registered[|s.teardown.rest|..])
        else s.downs == Reversed(s.registered))
  }

  ghost predicate EndedInv(c: Config, s: Manager) {
    forall t {:trigger EndedOk(c, s, t)} :: t in s.ended ==> EndedOk(c, s, t)
  }

  ghost predicate EndedOk(c: Config, s: Manager, t: nat) {
    t in s.ended && if s.ended[t] then AllOk(s, c.Needs(Task(t))) else FailedNeed(c, s, Task(t))
  }

  /** A start may fail because of its own command, teardown, or a failed dependency. */
  ghost predicate Caused(c: Config, s: Manager, r: TargetLabel) {
    r in s.faults || s.tearingDown || FailedNeed(c, s, Start(r))
  }

  ghost predicate FailedNeed(c: Config, s: Manager, a: Asker) {
    exists d :: d in c.Needs(a) && d in s.results && !s.results[d]
  }

  ghost predicate CauseInv(c: Config, s: Manager, r: TargetLabel) {
    && (r in s.phase && s.phase[r] == Refused ==> s.tearingDown)
    && (r in s.phase && s.phase[r] == Finishing(false) ==> Caused(c, s, r))
    && (r in s.results && !s.results[r] ==> Caused(c, s, r))
  }

  ghost predicate CausesInv(c: Config, s: Manager) {
    forall r {:trigger CauseInv(c, s, r)} :: CauseInv(c, s, r)
  }

  ghost predicate Inv(c: Config, s: Manager) {
    ResourcesInv(c, s) && LoopsInv(c, s) && OrderInv(c, s) && DownInv(s) && EndedInv(c, s) && CausesInv(c, s)
  }

  // Keeping it ----------------------------------------------------------------------------

  ghost predicate SameRecord(s: Manager, s': Manager, r: TargetLabel) {
    && (r in s.results <==> r in s'.results) && (r in s.results ==> s'.results[r] == s.results[r])
    && (r in s.registered <==> r in s'.registered) && (r in s.ups <==> r in s'.ups)
  }

  /** A step leaves a resource alone. */
  ghost predicate Untouched(s: Manager, s': Manager, r: TargetLabel) {
    && r in s.phase && r in s'.phase && s'.phase[r] == s.phase[r]
    && SameRecord(s, s', r) && (Start(r) in s.loops <==> Start(r) in s'.loops)
  }

  /** Nothing that is recorded is ever forgotten. */
  ghost predicate Extends(s: Manager, s': Manager) {
    && (forall r :: r in s.results ==> r in s'.results && s'.results[r] == s.results[r])
  }

  lemma AllOkStays(s: Manager, s': Manager, rs: seq<TargetLabel>)
    requires Extends(s, s') && AllOk(s, rs)
    ensures AllOk(s', rs)
  {
    forall d | d in rs ensures s'.Ok(d) {
      assert s.Ok(d);
    }
  }

  lemma ResourceStays(c: Config, s: Manager, s': Manager, r: TargetLabel)
    requires ResourceInv(c, s, r) && Extends(s, s') && Untouched(s, s', r)
    ensures ResourceInv(c, s', r)
  {
    if r in s.registered {
      AllOkStays(s, s', c.dependencies[r]);
    }
  }

  /** A step touches at most one resource, which keeps its part. */
  lemma ResourcesStay(c: Config, s: Manager, s': Manager, touched: TargetLabel)
    requires ResourcesInv(c, s) && Extends(s, s') && s'.phase.Keys == s.phase.Keys
    requires forall r :: r in s.phase && r != touched ==> Untouched(s, s', r)
    requires touched in s.phase ==> ResourceInv(c, s', touched)
    ensures ResourcesInv(c, s')
  {
    forall r | r in s'.phase ensures ResourceInv(c, s', r) {
      if r != touched {
        assert ResourceInv(c, s, r);
        ResourceStays(c, s, s', r);
      }
    }
  }

  lemma ResourcesHold(c: Config, s: Manager, s': Manager)
    requires ResourcesInv(c, s) && s'.phase == s.phase && s'.results == s.results
    requires s'.registered == s.registered && s'.ups == s.ups
    requires forall r :: Start(r) in s.loops <==> Start(r) in s'.loops
    ensures ResourcesInv(c, s')
  {
    forall r | r in s'.phase ensures ResourceInv(c, s', r) {
      assert ResourceInv(c, s, r);
      ResourceStays(c, s, s', r);
    }
  }

  /** Open flights stay open, so callers that joined one still wait for a flight. */
  ghost predicate FlightsStay(s: Manager, s': Manager) {
    forall r :: r in s.phase ==> r in s'.phase && (s'.phase[r] == NoFlight ==> s.phase[r] == NoFlight)
  }

  lemma LoopStays(c: Config, s: Manager, s': Manager, a: Asker)
    requires LoopInv(c, s, a) && Extends(s, s') && FlightsStay(s, s') && a in s'.loops && s'.loops[a] == s.loops[a]
    requires a.Start? ==> a.r in s'.phase && s'.phase[a.r] == Starting
    ensures LoopInv(c, s', a)
  {
    AllOkStays(s, s', c.Needs(a)[..s.loops[a].pos]);
  }

  /** All loops stay where they are. */
  lemma LoopsHold(c: Config, s: Manager, s': Manager)
    requires LoopsInv(c, s) && Extends(s, s') && FlightsStay(s, s') && s'.loops == s.loops
    requires forall r :: r in s.phase && s.phase[r] == Starting ==> r in s'.phase && s'.phase[r] == Starting
    ensures LoopsInv(c, s')
  {
    forall a | a in s.loops ensures LoopInv(c, s', a) {
      assert LoopInv(c, s, a);
      LoopStays(c, s, s', a);
    }
  }

  /** A step touches at most one loop, and ends no start that has not left its loop. */
  lemma LoopsStay(c: Config, s: Manager, s': Manager, touched: Asker)
    requires LoopsInv(c, s) && Extends(s, s') && FlightsStay(s, s')
    requires forall a :: a in s'.loops && a != touched ==> a in s.loops && s'.loops[a] == s.loops[a]
    requires forall a :: a in s'.loops && a != touched && a.Start? && a.r in s.phase && s.phase[a.r] == Starting ==>
               a.r in s'.phase && s'.phase[a.r] == Starting
    requires touched in s'.loops ==> LoopInv(c, s', touched)
    ensures LoopsInv(c, s')
  {
    forall a | a in s'.loops ensures LoopInv(c, s', a) {
      if a != touched {
        assert LoopInv(c, s, a);
        LoopStays(c, s, s', a);
      }
    }
  }

  lemma NeedStaysFailed(c: Config, s: Manager, s': Manager, a: Asker)
    requires FailedNeed(c, s, a) && Extends(s, s')
    ensures FailedNeed(c, s', a)
  {
    var d :| d in c.Needs(a) && d in s.results && !s.results[d];
    assert d in s'.results && !s'.results[d];
  }

  lemma EndedOkStays(c: Config, s: Manager, s': Manager, t: nat)
    requires EndedInv(c, s) && Extends(s, s') && t in s.ended && t in s'.ended && s'.ended[t] == s.ended[t]
    ensures EndedOk(c, s', t)
  {
    assert EndedOk(c, s, t);
    if s.ended[t] {
      AllOkStays(s, s', c.Needs(Task(t)));
    } else {
      NeedStaysFailed(c, s, s', Task(t));
    }
  }

  lemma EndedStays(c: Config, s: Manager, s': Manager)
    requires EndedInv(c, s) && Extends(s, s') && s'.ended == s.ended
    ensures EndedInv(c, s')
  {
    forall t | t in s'.ended ensures EndedOk(c, s', t) {
      EndedOkStays(c, s, s', t);
    }
  }

  /** A step adds no failure to a resource. */
  ghost predicate NoNewFailure(s: Manager, s': Manager, r: TargetLabel) {
    && (r in s'.phase && (s'.phase[r] == Refused || s'.phase[r] == Finishing(false)) ==>
          r in s.phase && s.phase[r] == s'.phase[r])
    && (r in s'.results ==> r in s.results && s'.results[r] == s.results[r])
  }

  lemma CauseStays(c: Config, s: Manager, s': Manager, r: TargetLabel)
    requires Caused(c, s, r) && Extends(s, s') && s.faults <= s'.faults && (s.tearingDown ==> s'.tearingDown)
    ensures Caused(c, s', r)
  {
    if FailedNeed(c, s, Start(r)) {
      NeedStaysFailed(c, s, s', Start(r));
    }
  }

  lemma CausesStay(c: Config, s: Manager, s': Manager, touched: TargetLabel)
    requires CausesInv(c, s) && Extends(s, s') && s.faults <= s'.faults && (s.tearingDown ==> s'.tearingDown)
    requires forall r :: r != touched ==> NoNewFailure(s, s', r)
    requires NoNewFailure(s, s', touched) || CauseInv(c, s', touched)
    ensures CausesInv(c, s')
  {
    forall r ensures CauseInv(c, s', r) {
      assert CauseInv(c, s, r) && (r != touched ==> NoNewFailure(s, s', r));
      if Caused(c, s, r) {
        CauseStays(c, s, s', r);
      }
    }
  }

  lemma NeedFailed(c: Config, s: Manager, a: Asker, r: TargetLabel)
    requires LoopsInv(c, s) && Asks(c, s, a, r) && s.loops[a].ask == Answered(false)
    ensures FailedNeed(c, s, a)
  {
    assert LoopInv(c, s, a);
    assert r in c.Needs(a);
  }

  /** The number of active starts, the registrations and teardown stay as they are. */
  lemma CountsStay(s: Manager, s': Manager)
    requires DownInv(s) && s'.phase.Keys == s.phase.Keys
    requires forall r :: r in s.phase ==> (s'.Active(r) <==> s.Active(r))
    requires s'.activeStarts == s.activeStarts && s'.tearingDown == s.tearingDown && s'.teardown == s.teardown
    requires s'.started == s.started && s'.registered == s.registered && s'.downs == s.downs
    requires s'.snapshotTaken == s.snapshotTaken
    ensures DownInv(s')
  {
    assert s'.ActiveSet() == s.ActiveSet();
  }

  /** A caller moves within its loop. */
  lemma CallMoves(c: Config, s: Manager, s': Manager, a: Asker)
    requires c.Valid() && Inv(c, s) && a in s.loops && a in s'.loops
    requires s' == s.(loops := s.loops[a := s'.loops[a]])
    requires LoopInv(c, s', a)
    ensures Inv(c, s') && Extends(s, s')
  {
    ResourcesHold(c, s, s');
    LoopsStay(c, s, s', a);
    CausesStay(c, s, s', TargetLabel("", ""));
    EndedStays(c, s, s');
    CountsStay(s, s');
  }

  lemma CheckKeeps(c: Config, s: Manager, a: Asker, r: TargetLabel, s': Manager)
    requires c.Valid() && Inv(c, s) && Taken(c, s, Check(a, r), s')
    ensures Inv(c, s') && Extends(s, s')
  {
    assert LoopInv(c, s, a);
    AllOkStays(s, s', c.Needs(a)[..s.loops[a].pos]);
    CallMoves(c, s, s', a);
  }

  lemma AdvanceKeeps(c: Config, s: Manager, a: Asker, r: TargetLabel, s': Manager)
    requires c.Valid() && Inv(c, s) && Taken(c, s, Advance(a, r), s') && s.loops[a].ask.ok
    ensures Inv(c, s') && Extends(s, s')
  {
    assert LoopInv(c, s, a);
    var needs, pos := c.Needs(a), s.loops[a].pos;
    AllOkStays(s, s', needs[..pos]);
    assert needs[..pos + 1] == needs[..pos] + [r];
    assert s'.Ok(r);
    NeedsKnown(c, s, a);
    CallMoves(c, s, s', a);
  }

  lemma NeedsKnown(c: Config, s: Manager, a: Asker)
    requires c.Valid() && s.phase.Keys == c.dependencies.Keys
    ensures forall r :: r in c.Needs(a) ==> r in s.phase
  {
  }

  /** The phase of a resource moves on; nothing is recorded. */
  lemma PhaseMoves(c: Config, s: Manager, s': Manager, r: TargetLabel)
    requires Inv(c, s) && r in s.phase && r in s'.phase
    requires s' == s.(phase := s.phase[r := s'.phase[r]], ups := s'.ups, faults := s'.faults)
    requires s'.phase[r] != NoFlight && s.phase[r] != Starting && s'.phase[r] != Starting
    requires s.Active(r) <==> s'.Active(r)
    requires ResourceInv(c, s', r) && CauseInv(c, s', r) && s.faults <= s'.faults
    requires NoDuplicates(s'.ups) && forall x :: x != r ==> (x in s.ups <==> x in s'.ups)
    ensures Inv(c, s') && Extends(s, s')
  {
    ResourcesStay(c, s, s', r);
    LoopsHold(c, s, s');
    CausesStay(c, s, s', r);
    EndedStays(c, s, s');
    CountsStay(s, s');
  }

  lemma RecheckKeeps(c: Config, s: Manager, r: TargetLabel, s': Manager)
    requires Inv(c, s) && Taken(c, s, Recheck(r), s')
    ensures Inv(c, s') && Extends(s, s')
  {
    assert ResourceInv(c, s, r) && CauseInv(c, s, r);
    if Caused(c, s, r) {
      CauseStays(c, s, s', r);
    }
    PhaseMoves(c, s, s', r);
  }

  lemma RefusedKeeps(c: Config, s: Manager, r: TargetLabel, s': Manager)
    requires Inv(c, s) && Taken(c, s, Begin(r), s') && s.tearingDown
    ensures Inv(c, s') && Extends(s, s')
  {
    assert ResourceInv(c, s, r) && CauseInv(c, s, r);
    PhaseMoves(c, s, s', r);
  }

  lemma RunUpKeeps(c: Config, s: Manager, r: TargetLabel, prepared: bool, s': Manager)
    requires Inv(c, s) && Taken(c, s, RunUp(r, prepared), s')
    ensures Inv(c, s') && Extends(s, s')
  {
    assert ResourceInv(c, s, r) && CauseInv(c, s, r);
    AllOkStays(s, s', c.dependencies[r]);
    PhaseMoves(c, s, s', r);
  }

  lemma UpReturnsKeeps(c: Config, s: Manager, r: TargetLabel, ok: bool, s': Manager)
    requires Inv(c, s) && Taken(c, s, UpReturns(r, ok), s')
    ensures Inv(c, s') && Extends(s, s')
  {
    assert ResourceInv(c, s, r) && CauseInv(c, s, r);
    AllOkStays(s, s', c.dependencies[r]);
    PhaseMoves(c, s, s', r);
  }

  lemma DoKeeps(c: Config, s: Manager, a: Asker, r: TargetLabel, s': Manager)
    requires c.Valid() && Inv(c, s) && Taken(c, s, Do(a, r), s')
    ensures Inv(c, s') && Extends(s, s')
  {
    DoResources(c, s, a, r, s');
    DoLoops(c, s, a, r, s');
    CausesStay(c, s, s', r);
    EndedStays(c, s, s');
    CountsStay(s, s');
  }

  lemma DoLoops(c: Config, s: Manager, a: Asker, r: TargetLabel, s': Manager)
    requires LoopsInv(c, s) && Taken(c, s, Do(a, r), s')
    ensures LoopsInv(c, s')
  {
    assert LoopInv(c, s, a);
    AllOkStays(s, s', c.Needs(a)[..s.loops[a].pos]);
    LoopsStay(c, s, s', a);
  }

  lemma DoResources(c: Config, s: Manager, a: Asker, r: TargetLabel, s': Manager)
    requires ResourcesInv(c, s) && Taken(c, s, Do(a, r), s')
    ensures ResourcesInv(c, s')
  {
    assert ResourceInv(c, s, r);
    if r in s.registered {
      AllOkStays(s, s', c.dependencies[r]);
    }
    ResourcesStay(c, s, s', r);
  }

  /** A start begins only before teardown, and is counted. */
  lemma BeginKeeps(c: Config, s: Manager, r: TargetLabel, s': Manager)
    requires c.Valid() && Inv(c, s) && Taken(c, s, Begin(r), s') && !s.tearingDown
    ensures Inv(c, s') && Extends(s, s')
  {
    BeginResources(c, s, r, s');
    BeginLoops(c, s, r, s');
    CausesStay(c, s, s', r);
    EndedStays(c, s, s');
    assert ResourceInv(c, s, r);
    assert s'.ActiveSet() == s.ActiveSet() + {r};
  }

  lemma BeginResources(c: Config, s: Manager, r: TargetLabel, s': Manager)
    requires ResourcesInv(c, s) && Taken(c, s, Begin(r), s') && !s.tearingDown
    ensures ResourcesInv(c, s')
  {
    assert ResourceInv(c, s, r);
    ResourcesStay(c, s, s', r);
  }

  lemma BeginLoops(c: Config, s: Manager, r: TargetLabel, s': Manager)
    requires c.Valid() && ResourcesInv(c, s) && LoopsInv(c, s) && Taken(c, s, Begin(r), s') && !s.tearingDown
    ensures LoopsInv(c, s')
  {
    assert ResourceInv(c, s, r);
    NeedsKnown(c, s, Start(r));
    LoopsStay(c, s, s', Start(r));
  }

  /** The result of a resource is recorded, once. */
  lemma ResultKeeps(c: Config, s: Manager, s': Manager, r: TargetLabel, ok: bool)
    requires c.Valid() && Inv(c, s) && r in s.phase && Recorded(s, s', r, ok)
    ensures Inv(c, s') && Extends(s, s')
  {
    ResultResources(c, s, s', r, ok);
    ResultLoops(c, s, s', r, ok);
    assert ResourceInv(c, s, r);
    assert CauseInv(c, s, r);
    if Caused(c, s, r) {
      CauseStays(c, s, s', r);
    }
    CausesStay(c, s, s', r);
    EndedStays(c, s, s');
    ResultCounts(s, s', r, ok);
  }

  lemma ResultCounts(s: Manager, s': Manager, r: TargetLabel, ok: bool)
    requires DownInv(s) && r in s.phase && Recorded(s, s', r, ok)
    ensures DownInv(s')
  {
    if s.phase[r] == Refused {
      assert s'.ActiveSet() == s.ActiveSet();
    } else {
      assert s.ActiveSet() == s'.ActiveSet() + {r};
    }
  }

  ghost predicate Recorded(s: Manager, s': Manager, r: TargetLabel, ok: bool)
    requires r in s.phase
  {
    && s' == s.(phase := s.phase[r := Closing(ok)], results := s.results[r := ok], activeStarts := s'.activeStarts)
    && (s.phase[r] == Refused || s.phase[r] == Finishing(ok))
    && (ok ==> r in s.ups)
    && s'.activeStarts == if s.phase[r] == Refused then s.activeStarts else s.activeStarts - 1
  }

  lemma ResultResources(c: Config, s: Manager, s': Manager, r: TargetLabel, ok: bool)
    requires ResourcesInv(c, s) && r in s.phase && Recorded(s, s', r, ok)
    ensures ResourcesInv(c, s')
  {
    assert ResourceInv(c, s, r);
    if r in s.registered {
      AllOkStays(s, s', c.dependencies[r]);
    }
    ResourcesStay(c, s, s', r);
  }

  lemma ResultLoops(c: Config, s: Manager, s': Manager, r: TargetLabel, ok: bool)
    requires ResourcesInv(c, s) && LoopsInv(c, s) && r in s.phase && Recorded(s, s', r, ok)
    ensures LoopsInv(c, s')
  {
    assert ResourceInv(c, s, r);
    LoopsHold(c, s, s');
  }

  lemma TaskEndsKeeps(c: Config, s: Manager, t: nat, ok: bool)
    requires c.Valid() && Inv(c, s) && Task(t) in s.loops
    requires if ok then s.loops[Task(t)].pos == |c.Needs(Task(t))| else FailedNeed(c, s, Task(t))
    ensures Inv(c, EndLoop(s, Task(t), ok)) && Extends(s, EndLoop(s, Task(t), ok))
  {
    var s' := EndLoop(s, Task(t), ok);
    var needs := c.Needs(Task(t));
    assert LoopInv(c, s, Task(t)) && needs[..|needs|] == needs;
    ResourcesHold(c, s, s');
    LoopsStay(c, s, s', Task(t));
    forall x | x in s'.ended ensures EndedOk(c, s', x) {
      if x != t {
        EndedOkStays(c, s, s', x);
      } else if ok {
        AllOkStays(s, s', needs);
      } else {
        NeedStaysFailed(c, s, s', Task(t));
      }
    }
    CausesStay(c, s, s', TargetLabel("", ""));
    CountsStay(s, s');
  }

  lemma StartFailsKeeps(c: Config, s: Manager, r: TargetLabel)
    requires c.Valid() && Inv(c, s) && Start(r) in s.loops && FailedNeed(c, s, Start(r))
    ensures Inv(c, EndLoop(s, Start(r), false)) && Extends(s, EndLoop(s, Start(r), false))
  {
    var s' := EndLoop(s, Start(r), false);
    assert LoopInv(c, s, Start(r));
    StartFailsResources(c, s, r);
    LoopsStay(c, s, s', Start(r));
    CausesStay(c, s, s', r);
    EndedStays(c, s, s');
    CountsStay(s, s');
  }

  lemma StartFailsResources(c: Config, s: Manager, r: TargetLabel)
    requires ResourcesInv(c, s) && Start(r) in s.loops && LoopInv(c, s, Start(r))
    ensures ResourcesInv(c, EndLoop(s, Start(r), false))
  {
    assert ResourceInv(c, s, r);
    ResourcesStay(c, s, EndLoop(s, Start(r), false), r);
  }

  /** Registration comes after the registration of every dependency, and never after the snapshot. */
  lemma RegisterKeeps(c: Config, s: Manager, r: TargetLabel)
    requires c.Valid() && Inv(c, s) && Start(r) in s.loops && s.loops[Start(r)].pos == |c.Needs(Start(r))|
    ensures Inv(c, EndLoop(s, Start(r), true)) && Extends(s, EndLoop(s, Start(r), true))
  {
    var s' := EndLoop(s, Start(r), true);
    RegisterResources(c, s, r);
    assert LoopInv(c, s, Start(r)) && ResourceInv(c, s, r);
    LoopsStay(c, s, s', Start(r));
    CausesStay(c, s, s', r);
    EndedStays(c, s, s');
    assert s'.ActiveSet() == s.ActiveSet();
    assert r in s.ActiveSet();
  }

  lemma RegisterResources(c: Config, s: Manager, r: TargetLabel)
    requires c.Valid() && ResourcesInv(c, s) && OrderInv(c, s)
    requires Start(r) in s.loops && LoopInv(c, s, Start(r)) && s.loops[Start(r)].pos == |c.Needs(Start(r))|
    ensures ResourcesInv(c, EndLoop(s, Start(r), true)) && OrderInv(c, EndLoop(s, Start(r), true))
  {
    var s' := EndLoop(s, Start(r), true);
    var needs := c.Needs(Start(r));
    assert ResourceInv(c, s, r) && needs[..|needs|] == needs;
    AllOkStays(s, s', needs);
    ResourcesStay(c, s, s', r);
    RegistrationOrder(c, s, r);
  }

  lemma RegistrationOrder(c: Config, s: Manager, r: TargetLabel)
    requires c.Valid() && ResourcesInv(c, s) && OrderInv(c, s) && r in c.dependencies && r !in s.registered
    requires AllOk(s, c.dependencies[r])
    ensures OrderInv(c, s.(registered := s.registered + [r]))
  {
    var now := s.registered + [r];
    forall i ensures DependenciesBefore(c, now, i) {
      assert DependenciesBefore(c, s.registered, i);
      if 0 <= i < |s.registered| {
        assert now[..i] == s.registered[..i];
      } else if i == |s.registered| {
        forall d | d in c.Needs(Start(r)) ensures d in now[..i] {
          assert now[..i] == s.registered && s.Ok(d) && ResourceInv(c, s, d);
        }
      }
    }
  }

  lemma CloseKeeps(c: Config, s: Manager, r: TargetLabel, s': Manager)
    requires c.Valid() && Inv(c, s) && Taken(c, s, Close(r), s')
    ensures Inv(c, s') && Extends(s, s')
  {
    CloseResources(c, s, r, s');
    CloseLoops(c, s, r, s');
    CausesStay(c, s, s', r);
    EndedStays(c, s, s');
    CountsStay(s, s');
  }

  lemma CloseLoops(c: Config, s: Manager, r: TargetLabel, s': Manager)
    requires ResourcesInv(c, s) && LoopsInv(c, s) && Taken(c, s, Close(r), s')
    ensures LoopsInv(c, s')
  {
    assert ResourceInv(c, s, r);
    forall a | a in s'.loops ensures LoopInv(c, s', a) {
      assert LoopInv(c, s, a);
      AllOkStays(s, s', c.Needs(a)[..s.loops[a].pos]);
    }
  }

  lemma CloseResources(c: Config, s: Manager, r: TargetLabel, s': Manager)
    requires ResourcesInv(c, s) && Taken(c, s, Close(r), s')
    ensures ResourcesInv(c, s')
  {
    assert ResourceInv(c, s, r);
    if r in s.registered {
      AllOkStays(s, s', c.dependencies[r]);
    }
    ResourcesStay(c, s, s', r);
  }

  lemma {:induction false} ReversedSnoc(rs: seq<TargetLabel>, i: nat)
    requires i < |rs|
    ensures Reversed(rs[i..]) == Reversed(rs[i + 1..]) + [rs[i]]
  {
    assert rs[i..][1..] == rs[i + 1..];
  }

  predicate OfTeardown(step: Step) {
    step.BeginTeardown? || step.Snapshot? || step.Down? || step.EndTeardown?
  }

  lemma TeardownKeeps(c: Config, s: Manager, step: Step, s': Manager)
    requires c.Valid() && Inv(c, s) && Taken(c, s, step, s') && OfTeardown(step)
    ensures Inv(c, s') && Extends(s, s')
  {
    assert s'.ActiveSet() == s.ActiveSet();
    DownMoves(s, s', step);
    TeardownRest(c, s, s');
  }

  lemma TeardownRest(c: Config, s: Manager, s': Manager)
    requires Inv(c, s) && DownInv(s') && (s.tearingDown ==> s'.tearingDown)
    requires s'.phase == s.phase && s'.loops == s.loops && s'.results == s.results && s'.registered == s.registered
    requires s'.ups == s.ups && s'.ended == s.ended && s'.faults == s.faults
    ensures Inv(c, s') && Extends(s, s')
  {
    TeardownApart(c, s, s');
    CausesStay(c, s, s', TargetLabel("", ""));
    EndedStays(c, s, s');
  }

  /** Starts do not notice teardown until they begin. */
  lemma TeardownApart(c: Config, s: Manager, s': Manager)
    requires ResourcesInv(c, s) && LoopsInv(c, s)
    requires s'.phase == s.phase && s'.loops == s.loops && s'.results == s.results && s'.registered == s.registered
    requires s'.ups == s.ups
    ensures ResourcesInv(c, s') && LoopsInv(c, s')
  {
    ResourcesHold(c, s, s');
    forall a | a in s'.loops ensures LoopInv(c, s', a) {
      assert LoopInv(c, s, a);
      LoopStays(c, s, s', a);
    }
  }

  lemma DownMoves(s: Manager, s': Manager, step: Step)
    requires DownInv(s) && s'.ActiveSet() == s.ActiveSet()
    requires match step
      case BeginTeardown => s.teardown == Idle && s' == s.(teardown := Waiting, tearingDown := true)
      case Snapshot =>
        && s.teardown == Waiting && s.activeStarts == 0
        && s' == s.(teardown := Downing(s.started), started := [], snapshotTaken := true)
      case Down =>
        s.teardown.Downing? && s.teardown.rest != []
        && var last := |s.teardown.rest| - 1;
        s' == s.(teardown := Downing(s.teardown.rest[..last]), downs := s.downs + [s.teardown.rest[last]])
      case EndTeardown => s.teardown == Downing([]) && s' == s.(teardown := Idle)
      case _ => false
    ensures DownInv(s')
  {
    var rs := s.registered;
    assert rs[0..] == rs && rs[|rs|..] == [] && rs[..|rs|] == rs;
    if step.Down? {
      var last := |s.teardown.rest| - 1;
      ReversedSnoc(rs, last);
      assert rs[..last + 1][..last] == rs[..last];
    }
  }

  lemma StepKeeps(c: Config, s: Manager, step: Step, s': Manager)
    requires c.Valid() && Inv(c, s) && Taken(c, s, step, s')
    ensures Inv(c, s') && Extends(s, s')
  {
    if OfTeardown(step) {
      TeardownKeeps(c, s, step, s');
    } else if step.Check? || step.Do? || step.Advance? || step.Complete? {
      CallStepKeeps(c, s, step, s');
    } else {
      FlightStepKeeps(c, s, step, s');
    }
  }

  lemma CallStepKeeps(c: Config, s: Manager, step: Step, s': Manager)
    requires c.Valid() && Inv(c, s) && Taken(c, s, step, s')
    requires step.Check? || step.Do? || step.Advance? || step.Complete?
    ensures Inv(c, s') && Extends(s, s')
  {
    match step
    case Check(a, r) => CheckKeeps(c, s, a, r, s');
    case Do(a, r) => DoKeeps(c, s, a, r, s');
    case Advance(a, r) => if s.loops[a].ask.ok { AdvanceKeeps(c, s, a, r, s'); } else { FailKeeps(c, s, a, r); }
    case Complete(a) => EndKeeps(c, s, a, true);
    case _ =>
  }

  lemma FlightStepKeeps(c: Config, s: Manager, step: Step, s': Manager)
    requires c.Valid() && Inv(c, s) && Taken(c, s, step, s')
    requires !OfTeardown(step) && !step.Check? && !step.Do? && !step.Advance? && !step.Complete?
    ensures Inv(c, s') && Extends(s, s')
  {
    match step
    case Recheck(r) => RecheckKeeps(c, s, r, s');
    case Begin(r) => if s.tearingDown { RefusedKeeps(c, s, r, s'); } else { BeginKeeps(c, s, r, s'); }
    case Refuse(r) => RefuseKeeps(c, s, r, s');
    case RunUp(r, prepared) => RunUpKeeps(c, s, r, prepared, s');
    case UpReturns(r, ok) => UpReturnsKeeps(c, s, r, ok, s');
    case Finish(r) => FinishKeeps(c, s, r, s');
    case Close(r) => CloseKeeps(c, s, r, s');
    case _ =>
  }

  lemma RefuseKeeps(c: Config, s: Manager, r: TargetLabel, s': Manager)
    requires c.Valid() && Inv(c, s) && Taken(c, s, Refuse(r), s')
    ensures Inv(c, s') && Extends(s, s')
  {
    ResultKeeps(c, s, s', r, false);
  }

  lemma FinishKeeps(c: Config, s: Manager, r: TargetLabel, s': Manager)
    requires c.Valid() && Inv(c, s) && Taken(c, s, Finish(r), s')
    ensures Inv(c, s') && Extends(s, s')
  {
    assert ResourceInv(c, s, r);
    ResultKeeps(c, s, s', r, s.phase[r].ok);
  }

  lemma FailKeeps(c: Config, s: Manager, a: Asker, r: TargetLabel)
    requires c.Valid() && Inv(c, s) && Asks(c, s, a, r) && s.loops[a].ask == Answered(false)
    ensures Inv(c, EndLoop(s, a, false)) && Extends(s, EndLoop(s, a, false))
  {
    NeedFailed(c, s, a, r);
    EndKeeps(c, s, a, false);
  }

  lemma EndKeeps(c: Config, s: Manager, a: Asker, ok: bool)
    requires c.Valid() && Inv(c, s) && a in s.loops
    requires if ok then s.loops[a].pos == |c.Needs(a)| else FailedNeed(c, s, a)
    ensures Inv(c, EndLoop(s, a, ok)) && Extends(s, EndLoop(s, a, ok))
  {
    match a
    case Task(t) => TaskEndsKeeps(c, s, t, ok);
    case Start(r) => if ok { RegisterKeeps(c, s, r); } else { StartFailsKeeps(c, s, r); }
  }

  lemma InitKeeps(c: Config)
    requires c.Valid()
    ensures Inv(c, Init(c))
  {
    var s := Init(c);
    assert s.ActiveSet() == {};
    forall r | r in s.phase ensures ResourceInv(c, s, r) {
    }
    forall a | a in s.loops ensures LoopInv(c, s, a) {
      assert a.Task? && a.id in c.needs;
      NeedsKnown(c, s, a);
    }
  }

  // Runs ----------------------------------------------------------------------------------

  ghost predicate Next(c: Config, s: Manager, s': Manager) {
    exists step :: Taken(c, s, step, s')
  }

  ghost predicate StepTaken(c: Config, run: seq<Manager>, i: int) {
    0 <= i < |run| - 1 ==> Next(c, run[i], run[i + 1])
  }

  /** One interleaving of tasks, starts and teardowns. */
  ghost predicate IsRun(c: Config, run: seq<Manager>) {
    && |run| >= 1
    && run[0] == Init(c)
    && forall i :: StepTaken(c, run, i)
  }

  lemma {:induction false} RunInv(c: Config, run: seq<Manager>, i: nat)
    requires c.Valid() && IsRun(c, run) && i < |run|
    ensures Inv(c, run[i])
  {
    if i == 0 {
      InitKeeps(c);
    } else {
      RunInv(c, run, i - 1);
      assert StepTaken(c, run, i - 1);
      var step :| Taken(c, run[i - 1], step, run[i]);
      StepKeeps(c, run[i - 1], step, run[i]);
    }
  }

  /** `b` follows `a` on the list, or `a` is not on it. */
  ghost predicate After(rs: seq<TargetLabel>, a: TargetLabel, b: TargetLabel) {
    forall i :: 0 <= i < |rs| && rs[i] == b ==> a in rs[..i]
  }

  /**
   In every interleaving each `up` runs at most once and only for a registered resource, no
   resource registers twice, and each registers after all its resource dependencies, whose
   recorded results are nil.
   */
  lemma StartsOnce(c: Config, run: seq<Manager>, i: nat)
    requires c.Valid() && IsRun(c, run) && i < |run|
    ensures NoDuplicates(run[i].ups) && NoDuplicates(run[i].registered)
    ensures forall r :: r in run[i].ups ==> r in run[i].registered
    ensures forall r :: r in run[i].registered ==> r in c.dependencies
    ensures forall r, d :: r in run[i].registered && d in c.dependencies[r] ==>
              run[i].Ok(d) && After(run[i].registered, d, r)
  {
    var s := run[i];
    RunInv(c, run, i);
    forall r, d | r in s.registered && d in c.Needs(Start(r)) ensures s.Ok(d) && After(s.registered, d, r) {
      var j :| 0 <= j < |s.registered| && s.registered[j] == r;
      assert ResourceInv(c, s, r) && DependenciesBefore(c, s.registered, j);
    }
  }

  /** A task's nil result, like a resource's, means that everything it needs came up, recursively. */
  lemma NilResults(c: Config, run: seq<Manager>, i: nat)
    requires c.Valid() && IsRun(c, run) && i < |run|
    ensures forall r, d :: run[i].Ok(r) && r in c.dependencies && d in c.dependencies[r] ==> run[i].Ok(d)
    ensures forall t :: t in run[i].ended ==> (run[i].ended[t] <==> forall d :: d in c.Needs(Task(t)) ==> run[i].Ok(d))
    ensures forall r :: run[i].Ok(r) && r in c.dependencies ==> r in run[i].ups
  {
    var s := run[i];
    RunInv(c, run, i);
    forall r | s.Ok(r) && r in c.dependencies ensures r in s.ups && AllOk(s, c.dependencies[r]) {
      assert ResourceInv(c, s, r);
    }
    forall t | t in s.ended ensures s.ended[t] <==> forall d :: d in c.Needs(Task(t)) ==> s.Ok(d) {
      assert EndedOk(c, s, t);
    }
  }

  lemma StepAfterSnapshot(c: Config, s: Manager, step: Step, s': Manager)
    requires LoopsInv(c, s) && DownInv(s) && Taken(c, s, step, s') && s.snapshotTaken
    ensures s'.snapshotTaken && s'.registered == s.registered && s'.ups == s.ups
  {
    NoneActive(s);
    assert step.RunUp? ==> !s.Active(step.r);
    if step.Complete? {
      OnlyTasksAsk(c, s, step.a);
    }
  }

  lemma NoneActive(s: Manager)
    requires DownInv(s) && s.snapshotTaken
    ensures forall r :: !s.Active(r)
  {
    forall r ensures !s.Active(r) {
      assert r !in s.ActiveSet();
    }
  }

  lemma OnlyTasksAsk(c: Config, s: Manager, a: Asker)
    requires LoopsInv(c, s) && DownInv(s) && s.snapshotTaken && a in s.loops
    ensures a.Task?
  {
    NoneActive(s);
    assert LoopInv(c, s, a) && (a.Start? ==> !s.Active(a.r));
  }

  /**
   A recorded result is never replaced; after the snapshot of teardown no resource registers
   and no `up` runs.
   */
  lemma {:induction false} NothingStartsAfterSnapshot(c: Config, run: seq<Manager>, i: nat, j: nat)
    requires c.Valid() && IsRun(c, run) && i <= j < |run|
    ensures Extends(run[i], run[j])
    ensures run[i].snapshotTaken ==>
              run[j].snapshotTaken && run[j].registered == run[i].registered && run[j].ups == run[i].ups
  {
    if i < j {
      NothingStartsAfterSnapshot(c, run, i, j - 1);
      RunInv(c, run, j - 1);
      assert StepTaken(c, run, j - 1);
      var step :| Taken(c, run[j - 1], step, run[j]);
      StepKeeps(c, run[j - 1], step, run[j]);
      if run[i].snapshotTaken {
        StepAfterSnapshot(c, run[j - 1], step, run[j]);
      }
    }
  }

  lemma NoneBegins(c: Config, s: Manager, step: Step, s': Manager, r: TargetLabel)
    requires LoopsInv(c, s) && s.tearingDown && Taken(c, s, step, s') && s'.Active(r)
    ensures s'.tearingDown && s.Active(r)
  {
    if step.Advance? || step.Complete? {
      assert LoopInv(c, s, step.a);
    } else if step.Check? || step.Do? || OfTeardown(step) {
      NoneBeginsApart(c, s, step, s', r);
    }
  }

  lemma NoneBeginsApart(c: Config, s: Manager, step: Step, s': Manager, r: TargetLabel)
    requires s.tearingDown && Taken(c, s, step, s') && s'.Active(r) && (step.Check? || step.Do? || OfTeardown(step))
    ensures s'.tearingDown && s.Active(r)
  {
  }

  /** Once a teardown has begun, no start begins that had not got past this check before. */
  lemma {:induction false} TeardownStopsStarts(c: Config, run: seq<Manager>, i: nat, j: nat, r: TargetLabel)
    requires c.Valid() && IsRun(c, run) && i <= j < |run| && run[i].tearingDown && run[j].Active(r)
    ensures run[i].Active(r)
  {
    if i < j {
      StaysDown(c, run, i, j - 1);
      var step := RunMoves(c, run, j - 1);
      NoneBegins(c, run[j - 1], step, run[j], r);
      TeardownStopsStarts(c, run, i, j - 1, r);
    }
  }

  lemma {:induction false} StaysDown(c: Config, run: seq<Manager>, i: nat, j: nat)
    requires IsRun(c, run) && i <= j < |run| && run[i].tearingDown
    ensures run[j].tearingDown
  {
    if i < j {
      StaysDown(c, run, i, j - 1);
      var last, step := StepBefore(c, run, j);
      FlagStays(c, run[last], step, run[j]);
    }
  }

  lemma FlagStays(c: Config, s: Manager, step: Step, s': Manager)
    requires s.tearingDown && Taken(c, s, step, s')
    ensures s'.tearingDown
  {
    match step
    case Advance(a, r) => EndKeepsFlag(s, a);
    case Complete(a) => EndKeepsFlag(s, a);
    case _ =>
  }

  lemma EndKeepsFlag(s: Manager, a: Asker)
    requires a in s.loops
    ensures forall ok :: EndLoop(s, a, ok).tearingDown == s.tearingDown && EndLoop(s, a, ok).faults == s.faults
  {
  }

  lemma StepBefore(c: Config, run: seq<Manager>, i: nat) returns (k: nat, step: Step)
    requires IsRun(c, run) && 0 < i < |run|
    ensures k == i - 1 && StepAt(c, run, k, step)
  {
    k := i - 1;
    assert StepTaken(c, run, k);
    step :| Taken(c, run[k], step, run[i]);
  }

  /** No start fails without a cause: its own command, a teardown, or a dependency that failed. */
  lemma FailuresHaveCauses(c: Config, run: seq<Manager>, i: nat, r: TargetLabel)
    requires c.Valid() && IsRun(c, run) && i < |run| && r in run[i].results && !run[i].results[r]
    ensures Caused(c, run[i], r)
  {
    RunInv(c, run, i);
    assert CauseInv(c, run[i], r);
  }

  /** Step `i` of the run is `step`. */
  ghost predicate StepAt(c: Config, run: seq<Manager>, i: int, step: Step) {
    0 <= i < |run| - 1 && Taken(c, run[i], step, run[i + 1])
  }

  /** The up command of `r` has returned, or could not be prepared, and its start is to end accordingly. */
  predicate UpDone(s: Manager, r: TargetLabel, ok: bool) {
    (r in s.phase && s.phase[r] == Finishing(ok)) || (r in s.results && s.results[r] == ok)
  }

  predicate Ups(step: Step, r: TargetLabel, ok: bool) {
    step == UpReturns(r, ok) || (step == RunUp(r, false) && !ok)
  }

  lemma UpDoneStays(c: Config, s: Manager, step: Step, s': Manager, r: TargetLabel, ok: bool)
    requires LoopsInv(c, s) && Extends(s, s') && Taken(c, s, step, s') && UpDone(s, r, ok)
    ensures UpDone(s', r, ok)
  {
    if r in s.phase && s.phase[r] == Finishing(ok) {
      if step.Advance? || step.Complete? {
        EndApart(c, s, step.a, step.Complete?, r);
      } else if step.Check? || step.Do? || OfTeardown(step) {
        OthersOfDone(c, s, step, s', r);
      } else {
        PhaseOfDone(c, s, step, s', r, ok);
      }
    }
  }

  /** The end of a loop moves no start that is past its loop. */
  lemma EndApart(c: Config, s: Manager, a: Asker, ok: bool, r: TargetLabel)
    requires LoopsInv(c, s) && a in s.loops && r in s.phase && s.phase[r].Finishing?
    ensures r in EndLoop(s, a, ok).phase && EndLoop(s, a, ok).phase[r] == s.phase[r]
  {
    assert LoopInv(c, s, a);
  }

  lemma PhaseOfDone(c: Config, s: Manager, step: Step, s': Manager, r: TargetLabel, ok: bool)
    requires Taken(c, s, step, s') && !OfTeardown(step)
    requires !step.Check? && !step.Do? && !step.Advance? && !step.Complete?
    requires r in s.phase && s.phase[r] == Finishing(ok)
    ensures UpDone(s', r, ok)
  {
  }

  lemma OthersOfDone(c: Config, s: Manager, step: Step, s': Manager, r: TargetLabel)
    requires Taken(c, s, step, s') && (step.Check? || step.Do? || OfTeardown(step))
    requires r in s.phase && s.phase[r].Finishing?
    ensures r in s'.phase && s'.phase[r] == s.phase[r]
  {
  }

  /**
   The result of a start is that of its up command: once that has failed, or could not be
   prepared, the resource never has a nil result, and no task that needs it goes on.
   */
  lemma UpDecides(c: Config, run: seq<Manager>, i: nat, j: nat, r: TargetLabel, step: Step, ok: bool)
    requires c.Valid() && IsRun(c, run) && i < j < |run| && StepAt(c, run, i, step) && Ups(step, r, ok)
    ensures UpDone(run[j], r, ok)
    ensures r in run[j].results ==> run[j].results[r] == ok
    ensures !ok ==> forall t :: t in run[j].ended && r in c.Needs(Task(t)) ==> !run[j].ended[t]
  {
    UpEnds(c, run[i], step, run[i + 1], r, ok);
    UpStaysDone(c, run, i + 1, j, r, ok);
    RunInv(c, run, j);
    DoneDecides(c, run[j], r, ok);
  }

  lemma UpEnds(c: Config, s: Manager, step: Step, s': Manager, r: TargetLabel, ok: bool)
    requires Taken(c, s, step, s') && Ups(step, r, ok)
    ensures UpDone(s', r, ok)
  {
  }

  lemma {:induction false} UpStaysDone(c: Config, run: seq<Manager>, i: nat, j: nat, r: TargetLabel, ok: bool)
    requires c.Valid() && IsRun(c, run) && i <= j < |run| && UpDone(run[i], r, ok)
    ensures UpDone(run[j], r, ok)
  {
    if i < j {
      UpStaysDone(c, run, i, j - 1, r, ok);
      UpDoneNext(c, run, j - 1, r, ok);
    }
  }

  lemma UpDoneNext(c: Config, run: seq<Manager>, i: nat, r: TargetLabel, ok: bool)
    requires c.Valid() && IsRun(c, run) && i + 1 < |run| && UpDone(run[i], r, ok)
    ensures UpDone(run[i + 1], r, ok)
  {
    var next := RunMoves(c, run, i);
    UpDoneStays(c, run[i], next, run[i + 1], r, ok);
  }

  lemma RunMoves(c: Config, run: seq<Manager>, i: nat) returns (step: Step)
    requires c.Valid() && IsRun(c, run) && i + 1 < |run|
    ensures LoopsInv(c, run[i]) && Extends(run[i], run[i + 1]) && Taken(c, run[i], step, run[i + 1])
  {
    RunInv(c, run, i);
    assert StepTaken(c, run, i);
    step :| Taken(c, run[i], step, run[i + 1]);
    StepKeeps(c, run[i], step, run[i + 1]);
  }

  lemma DoneDecides(c: Config, s: Manager, r: TargetLabel, ok: bool)
    requires ResourcesInv(c, s) && EndedInv(c, s) && UpDone(s, r, ok)
    ensures r in s.results ==> s.results[r] == ok
    ensures !ok ==> forall t :: t in s.ended && r in c.Needs(Task(t)) ==> !s.ended[t]
  {
    assert r in s.phase ==> ResourceInv(c, s, r);
    forall t | t in s.ended && r in c.Needs(Task(t)) && s.ended[t] ensures s.Ok(r) {
      assert EndedOk(c, s, t);
    }
  }

  /** Any other step leaves it undone. */
  lemma NilByUp(c: Config, s: Manager, step: Step, s': Manager, r: TargetLabel)
    requires Taken(c, s, step, s') && step != UpReturns(r, true) && !UpDone(s, r, true)
    ensures !UpDone(s', r, true)
  {
    if step.Advance? || step.Complete? {
      EndIsNotNil(c, s, step, s', r);
    } else if step.Check? || step.Do? || step.Close? || OfTeardown(step) {
      CallIsNotNil(c, s, step, s', r);
    } else {
      FlightIsNotNil(c, s, step, s', r);
    }
  }

  lemma EndIsNotNil(c: Config, s: Manager, step: Step, s': Manager, r: TargetLabel)
    requires Taken(c, s, step, s') && (step.Advance? || step.Complete?) && !UpDone(s, r, true)
    ensures !UpDone(s', r, true)
  {
    if step.Complete? || !s.loops[step.a].ask.ok {
      LoopEndIsNotNil(s, step.a, step.Complete?, r);
    }
  }

  lemma LoopEndIsNotNil(s: Manager, a: Asker, ok: bool, r: TargetLabel)
    requires a in s.loops && !UpDone(s, r, true)
    ensures !UpDone(EndLoop(s, a, ok), r, true)
  {
  }

  lemma CallIsNotNil(c: Config, s: Manager, step: Step, s': Manager, r: TargetLabel)
    requires Taken(c, s, step, s') && (step.Check? || step.Do? || step.Close? || OfTeardown(step))
    requires !UpDone(s, r, true)
    ensures !UpDone(s', r, true)
  {
  }

  lemma FlightIsNotNil(c: Config, s: Manager, step: Step, s': Manager, r: TargetLabel)
    requires Taken(c, s, step, s') && step != UpReturns(r, true) && !UpDone(s, r, true)
    requires step.Recheck? || step.Begin? || step.Refuse? || step.RunUp? || step.UpReturns? || step.Finish?
    ensures !UpDone(s', r, true)
  {
    if step.Recheck? || step.Begin? {
      EntryIsNotNil(c, s, step, s', r);
    }
  }

  lemma EntryIsNotNil(c: Config, s: Manager, step: Step, s': Manager, r: TargetLabel)
    requires Taken(c, s, step, s') && (step.Recheck? || step.Begin?) && !UpDone(s, r, true)
    ensures !UpDone(s', r, true)
  {
  }

  /** A nil result comes from an up command that returned without an error. */
  lemma {:induction false} NilReturned(c: Config, run: seq<Manager>, i: nat, r: TargetLabel) returns (k: nat)
    requires IsRun(c, run) && i < |run| && UpDone(run[i], r, true)
    ensures k < i && StepAt(c, run, k, UpReturns(r, true))
  {
    var step;
    k, step := StepBefore(c, run, i);
    if UpDone(run[k], r, true) {
      k := NilReturned(c, run, k, r);
    } else if step != UpReturns(r, true) {
      NilByUp(c, run[k], step, run[i], r);
    }
  }

  lemma FaultByUp(c: Config, s: Manager, step: Step, s': Manager, r: TargetLabel)
    requires Taken(c, s, step, s') && r in s'.faults && r !in s.faults
    ensures Ups(step, r, false)
  {
    if step.Advance? || step.Complete? {
      EndKeepsFlag(s, step.a);
    }
  }

  /** What counts as a fault of `r` is a failed up command, or one that could not be prepared. */
  lemma {:induction false} FaultTaken(c: Config, run: seq<Manager>, i: nat, r: TargetLabel)
    returns (k: nat, step: Step)
    requires IsRun(c, run) && i < |run| && r in run[i].faults
    ensures k < i && StepAt(c, run, k, step) && Ups(step, r, false)
  {
    k, step := StepBefore(c, run, i);
    if r in run[k].faults {
      k, step := FaultTaken(c, run, k, r);
    } else {
      FaultByUp(c, run[k], step, run[i], r);
    }
  }

  lemma NilIsFaultless(c: Config, run: seq<Manager>, i: nat, r: TargetLabel)
    requires c.Valid() && IsRun(c, run) && i < |run| && run[i].Ok(r)
    ensures r !in run[i].faults
  {
    if r in run[i].faults {
      var k, step := FaultTaken(c, run, i, r);
      UpDecides(c, run, k, i, r, step, false);
      assert false;
    }
  }

  lemma {:induction false} ReversedAt(rs: seq<TargetLabel>, k: nat)
    requires k < |rs|
    ensures Reversed(rs)[k] == rs[|rs| - 1 - k]
  {
    if k < |rs| - 1 {
      ReversedAt(rs[1..], k);
    }
  }

  /**
   Teardown handles registered resources in reverse order of registration, each at most
   once; when it is done it has handled every resource that ever registered exactly once.
   */
  lemma ReverseTeardown(c: Config, run: seq<Manager>, i: nat)
    requires c.Valid() && IsRun(c, run) && i < |run|
    ensures NoDuplicates(run[i].downs) && |run[i].downs| <= |run[i].registered|
    ensures forall k :: 0 <= k < |run[i].downs| ==> run[i].downs[k] == run[i].registered[|run[i].registered| - 1 - k]
    ensures run[i].snapshotTaken && !run[i].teardown.Downing? ==> |run[i].downs| == |run[i].registered|
  {
    RunInv(c, run, i);
    DownsReversed(run[i]);
  }

  lemma DownsReversed(s: Manager)
    requires DownInv(s)
    ensures |s.downs| <= |s.registered|
    ensures forall k :: 0 <= k < |s.downs| ==> s.downs[k] == s.registered[|s.registered| - 1 - k]
    ensures s.snapshotTaken && !s.teardown.Downing? ==> |s.downs| == |s.registered|
  {
    if s.snapshotTaken {
      var from := if s.teardown.Downing? then |s.teardown.rest| else 0;
      var tail := s.registered[from..];
      assert s.registered[0..] == s.registered;
      assert s.downs == Reversed(tail);
      forall k | 0 <= k < |tail| ensures s.downs[k] == s.registered[|s.registered| - 1 - k] {
        ReversedAt(tail, k);
      }
    }
  }

  // Progress ------------------------------------------------------------------------------

  /** All calls have returned, no start is in flight, and no teardown either. */
  predicate Quiescent(s: Manager) {
    s.loops.Keys == {} && s.teardown == Idle && forall r :: r in s.phase ==> s.phase[r] == NoFlight
  }

  /** A caller inside its loop can move unless the flight it joined is still open. */
  lemma LoopCanMove(c: Config, s: Manager, a: Asker) returns (step: Step)
    requires c.Valid() && Inv(c, s) && a in s.loops
    requires forall r :: Asks(c, s, a, r) && r in s.phase && s.loops[a].ask == Joined ==> s.phase[r] == NoFlight
    ensures Enabled(c, s, step) && step != BeginTeardown
  {
    assert LoopInv(c, s, a);
    if s.loops[a].pos == |c.Needs(a)| {
      step := Complete(a);
    } else {
      var r := c.Needs(a)[s.loops[a].pos];
      assert Asks(c, s, a, r);
      match s.loops[a].ask
      case Checking => step := Check(a, r);
      case Missed => step := Do(a, r);
      case Answered(_) => step := Advance(a, r);
      case Joined => assert false;
    }
  }

  /** A start only ever waits for the flight of a strict ancestor, so waits form no cycle. */
  lemma WaitsGoUp(c: Config, s: Manager, r: TargetLabel, d: TargetLabel)
    requires c.Valid() && Inv(c, s) && Asks(c, s, Start(r), d) && s.loops[Start(r)].ask == Joined
    ensures Reaches(c.g, d, r) && d in s.phase && s.phase[d] != NoFlight
  {
    assert LoopInv(c, s, Start(r)) && ResourceInv(c, s, r);
  }

  /** In an acyclic graph some call, start or teardown can always move on. */
  lemma StartProgress(c: Config, run: seq<Manager>, i: nat) returns (step: Step)
    requires c.Valid() && c.g.Valid() && Acyclic(c.g) && IsRun(c, run) && i < |run| && !Quiescent(run[i])
    ensures Enabled(c, run[i], step) && step != BeginTeardown
  {
    var s := run[i];
    RunInv(c, run, i);
    var open := set r | r in s.phase && s.phase[r] != NoFlight;
    if open != {} {
      var start :| start in open;
      var r := Minimal(c.g, open, start);
      step := FlightCanMove(c, s, r, open);
    } else if s.loops.Keys != {} {
      var a :| a in s.loops.Keys;
      assert forall r :: r in s.phase ==> r !in open;
      step := LoopCanMove(c, s, a);
    } else {
      assert s.ActiveSet() == {} by {
        assert forall r :: r in s.phase ==> r !in open;
      }
      step := if s.teardown == Waiting then Snapshot else if s.teardown == Downing([]) then EndTeardown else Down;
      assert s.teardown != Idle by {
        assert forall r :: r in s.phase ==> r !in open;
      }
    }
  }

  lemma FlightCanMove(c: Config, s: Manager, r: TargetLabel, open: set<TargetLabel>) returns (step: Step)
    requires c.Valid() && Inv(c, s) && open == set x | x in s.phase && s.phase[x] != NoFlight
    requires r in open && forall a :: a in open ==> !Reaches(c.g, a, r)
    ensures Enabled(c, s, step) && step != BeginTeardown
  {
    assert ResourceInv(c, s, r);
    match s.phase[r]
    case Opened => step := Recheck(r);
    case Rechecked => step := Begin(r);
    case Refused => step := Refuse(r);
    case Registered => step := RunUp(r, true);
    case Upping => step := UpReturns(r, true);
    case Closing(_) => step := Close(r);
    case Finishing(_) =>
      assert r in s.ActiveSet();
      step := Finish(r);
    case Starting =>
      forall d | Asks(c, s, Start(r), d) && d in s.phase && s.loops[Start(r)].ask == Joined
        ensures s.phase[d] == NoFlight
      {
        WaitsGoUp(c, s, r, d);
      }
      step := LoopCanMove(c, s, Start(r));
  }

  // Every run comes to an end ---------------------------------------------------------------

  function AskWeight(ask: Ask): nat {
    match ask
    case Checking => 7
    case Missed => 6
    case Joined => 1
    case Answered(_) => 0
  }

  /** The steps that a loop over dependencies causes at most, with those of the flights that it opens. */
  function LoopWeight(c: Config, a: Asker, loop: Loop): nat {
    var n := |c.Needs(a)|;
    1 + AskWeight(loop.ask) + if loop.pos < n then 8 * (n - loop.pos) else 0
  }

  function PhaseRank(p: Phase): nat {
    match p
    case NoFlight => 0
    case Closing(_) => 1
    case Finishing(_) => 2
    case Refused => 2
    case Rechecked => 3
    case Upping => 3
    case Opened => 4
    case Registered => 4
    case Starting => 5
  }

  /** The start of `r` may still be attempted. */
  predicate Unstarted(s: Manager, r: TargetLabel) {
    r in s.phase && r !in s.results && (s.phase[r].NoFlight? || s.phase[r].Opened? || s.phase[r].Rechecked?)
  }

  function PhaseWeight(c: Config, s: Manager, r: TargetLabel): nat {
    (if r in s.phase then PhaseRank(s.phase[r]) else 0) + if Unstarted(s, r) then 11 + 8 * |c.Needs(Start(r))| else 0
  }

  function LoopWeights(c: Config, s: Manager): map<Asker, nat> {
    map a | a in s.loops :: LoopWeight(c, a, s.loops[a])
  }

  function PhaseWeights(c: Config, s: Manager): map<TargetLabel, nat> {
    map r | r in s.phase :: PhaseWeight(c, s, r)
  }

  function TeardownWeight(s: Manager): nat {
    |s.started| + match s.teardown
                  case Idle => 0
                  case Waiting => 2
                  case Downing(rest) => 1 + |rest|
  }

  ghost function StepsLeft(c: Config, s: Manager): nat {
    Sum(LoopWeights(c, s)) + Sum(PhaseWeights(c, s)) + TeardownWeight(s)
  }

  ghost predicate OnlyLoop(s: Manager, s': Manager, a: Asker) {
    forall b :: b != a ==> (b in s.loops <==> b in s'.loops) && (b in s.loops ==> s'.loops[b] == s.loops[b])
  }

  ghost predicate OnlyPhase(s: Manager, s': Manager, r: TargetLabel) {
    && s'.phase.Keys == s.phase.Keys
    && forall x :: x in s.phase && x != r ==> s'.phase[x] == s.phase[x] && (x in s.results <==> x in s'.results)
  }

  function WeightAt(c: Config, s: Manager, a: Asker, r: TargetLabel): nat {
    PhaseWeight(c, s, r) + TeardownWeight(s) + if a in s.loops then LoopWeight(c, a, s.loops[a]) else 0
  }

  /** One loop and one flight change, and what they and the teardown have left gets less. */
  ghost predicate Lighter(c: Config, s: Manager, s': Manager, a: Asker, r: TargetLabel) {
    OnlyLoop(s, s', a) && OnlyPhase(s, s', r) && WeightAt(c, s', a, r) < WeightAt(c, s, a, r)
  }

  lemma LighterDrops(c: Config, s: Manager, s': Manager, a: Asker, r: TargetLabel)
    requires Lighter(c, s, s', a, r)
    ensures StepsLeft(c, s') < StepsLeft(c, s)
  {
    LoopWorkMoves(c, s, s', a);
    PhaseWorkMoves(c, s, s', r);
  }

  lemma LoopWorkMoves(c: Config, s: Manager, s': Manager, a: Asker)
    requires OnlyLoop(s, s', a)
    ensures Sum(LoopWeights(c, s')) + At(LoopWeights(c, s), a) == Sum(LoopWeights(c, s)) + At(LoopWeights(c, s'), a)
  {
    assert LoopWeights(c, s) - {a} == LoopWeights(c, s') - {a};
    SumChanges(LoopWeights(c, s), LoopWeights(c, s'), a);
  }

  lemma PhaseWorkMoves(c: Config, s: Manager, s': Manager, r: TargetLabel)
    requires OnlyPhase(s, s', r)
    ensures Sum(PhaseWeights(c, s')) + PhaseWeight(c, s, r) == Sum(PhaseWeights(c, s)) + PhaseWeight(c, s', r)
  {
    assert PhaseWeights(c, s) - {r} == PhaseWeights(c, s') - {r};
    SumChanges(PhaseWeights(c, s), PhaseWeights(c, s'), r);
  }

  lemma PhaseWorkDrops(c: Config, s: Manager, s': Manager, r: TargetLabel)
    requires OnlyPhase(s, s', r) && PhaseWeight(c, s', r) < PhaseWeight(c, s, r)
    ensures Sum(PhaseWeights(c, s')) < Sum(PhaseWeights(c, s))
  {
    PhaseWorkMoves(c, s, s', r);
  }

  lemma LoopLighter(c: Config, s: Manager, s': Manager, a: Asker, loop: Loop, r: TargetLabel)
    requires a in s.loops && s' == s.(loops := s.loops[a := loop])
    requires LoopWeight(c, a, loop) < LoopWeight(c, a, s.loops[a])
    ensures Lighter(c, s, s', a, r)
  {
  }

  lemma PhaseLighter(c: Config, s: Manager, s': Manager, r: TargetLabel, p: Phase)
    requires r in s.phase && s'.phase == s.phase[r := p]
    requires s'.loops == s.loops && s'.started == s.started && s'.teardown == s.teardown
    requires forall x :: x != r ==> (x in s.results <==> x in s'.results)
    requires PhaseRank(p) < PhaseRank(s.phase[r]) && (Unstarted(s', r) ==> Unstarted(s, r))
    ensures Lighter(c, s, s', Start(r), r)
  {
  }

  /** One call moves on inside its loop, opening a flight at most. */
  lemma CallLighter(c: Config, s: Manager, a: Asker, r: TargetLabel, s': Manager)
    requires Taken(c, s, Check(a, r), s') || (Taken(c, s, Advance(a, r), s') && s.loops[a].ask.ok)
    ensures Lighter(c, s, s', a, r)
  {
    LoopLighter(c, s, s', a, s'.loops[a], r);
  }

  lemma DoLighter(c: Config, s: Manager, a: Asker, r: TargetLabel, s': Manager)
    requires Taken(c, s, Do(a, r), s')
    ensures Lighter(c, s, s', a, r)
  {
  }

  lemma EndLighter(c: Config, s: Manager, a: Asker, ok: bool, s': Manager, r: TargetLabel)
    requires a in s.loops && s' == EndLoop(s, a, ok)
    requires a.Start? ==> a.r == r && r in s.phase && s.phase[r] == Starting
    ensures Lighter(c, s, s', a, r)
  {
  }

  lemma BeginLighter(c: Config, s: Manager, r: TargetLabel, s': Manager)
    requires Taken(c, s, Begin(r), s') && r !in s.results
    ensures Lighter(c, s, s', Start(r), r)
  {
    if s.tearingDown {
      PhaseLighter(c, s, s', r, Refused);
    }
  }

  /** A flight has, or gets, its result. */
  lemma ResultLighter(c: Config, s: Manager, step: Step, s': Manager)
    requires Taken(c, s, step, s')
    requires step.Recheck? || step.Refuse? || step.UpReturns? || step.Finish?
    ensures Lighter(c, s, s', Start(step.r), step.r)
  {
    match step
    case Recheck(r) => PhaseLighter(c, s, s', r, if r in s.results then Closing(s.results[r]) else Rechecked);
    case Refuse(r) => PhaseLighter(c, s, s', r, Closing(false));
    case UpReturns(r, ok) => PhaseLighter(c, s, s', r, Finishing(ok));
    case Finish(r) => PhaseLighter(c, s, s', r, Closing(s.phase[r].ok));
    case _ =>
  }

  lemma UpLighter(c: Config, s: Manager, r: TargetLabel, prepared: bool, s': Manager)
    requires Taken(c, s, RunUp(r, prepared), s')
    ensures Lighter(c, s, s', Start(r), r)
  {
    PhaseLighter(c, s, s', r, if prepared then Upping else Finishing(false));
  }

  /** The callers that a flight answers have less left, and no other caller notices. */
  lemma AnswersLighter(c: Config, s: Manager, r: TargetLabel, s': Manager)
    requires Taken(c, s, Close(r), s')
    ensures Sum(LoopWeights(c, s')) <= Sum(LoopWeights(c, s))
  {
    SumAtMost(LoopWeights(c, s'), LoopWeights(c, s));
  }

  lemma FlightEnds(c: Config, s: Manager, r: TargetLabel, s': Manager)
    requires r in s.phase && s.phase[r].Closing? && s'.phase == s.phase[r := NoFlight]
    requires s'.results == s.results && r in s.results
    ensures Sum(PhaseWeights(c, s')) < Sum(PhaseWeights(c, s))
  {
    PhaseWorkDrops(c, s, s', r);
  }

  lemma CloseDrops(c: Config, s: Manager, r: TargetLabel, s': Manager)
    requires Taken(c, s, Close(r), s') && r in s.results
    ensures StepsLeft(c, s') < StepsLeft(c, s)
  {
    AnswersLighter(c, s, r, s');
    FlightEnds(c, s, r, s');
  }

  lemma TeardownMoves(c: Config, s: Manager, step: Step, s': Manager)
    requires Taken(c, s, step, s') && (OfTeardown(step) || step == BeginTeardown)
    ensures StepsLeft(c, s') <= StepsLeft(c, s) + if step == BeginTeardown then 2 else -1
  {
    SameWork(c, s, s');
  }

  lemma SameWork(c: Config, s: Manager, s': Manager)
    requires s'.loops == s.loops && s'.phase == s.phase && s'.results == s.results
    ensures LoopWeights(c, s') == LoopWeights(c, s) && PhaseWeights(c, s') == PhaseWeights(c, s)
  {
  }

  lemma EndDrops(c: Config, s: Manager, a: Asker, ok: bool, s': Manager)
    requires LoopsInv(c, s) && a in s.loops && s' == EndLoop(s, a, ok)
    ensures StepsLeft(c, s') < StepsLeft(c, s)
  {
    assert LoopInv(c, s, a);
    var r := if a.Start? then a.r else TargetLabel("", "");
    EndLighter(c, s, a, ok, s', r);
    LighterDrops(c, s, s', a, r);
  }

  lemma FlightDrops(c: Config, s: Manager, step: Step, s': Manager)
    requires ResourcesInv(c, s) && Taken(c, s, step, s')
    requires step.Begin? || step.Recheck? || step.Refuse? || step.RunUp? || step.UpReturns? || step.Finish?
    ensures StepsLeft(c, s') < StepsLeft(c, s)
  {
    if step.Begin? {
      assert ResourceInv(c, s, step.r);
      BeginLighter(c, s, step.r, s');
    } else if step.RunUp? {
      UpLighter(c, s, step.r, step.prepared, s');
    } else {
      ResultLighter(c, s, step, s');
    }
    LighterDrops(c, s, s', Start(step.r), step.r);
  }

  /** Every step but the beginning of a teardown uses up some of the steps that are left. */
  lemma StepsDrop(c: Config, s: Manager, step: Step, s': Manager)
    requires ResourcesInv(c, s) && LoopsInv(c, s) && Taken(c, s, step, s')
    ensures StepsLeft(c, s') <= StepsLeft(c, s) + if step == BeginTeardown then 2 else -1
  {
    if step.Check? || (step.Advance? && s.loops[step.a].ask.ok) {
      CallLighter(c, s, step.a, step.r, s');
      LighterDrops(c, s, s', step.a, step.r);
    } else if step.Do? {
      DoLighter(c, s, step.a, step.r, s');
      LighterDrops(c, s, s', step.a, step.r);
    } else if step.Advance? || step.Complete? {
      EndDrops(c, s, step.a, step.Complete?, s');
    } else if step.Close? {
      assert ResourceInv(c, s, step.r);
      CloseDrops(c, s, step.r, s');
    } else if OfTeardown(step) || step == BeginTeardown {
      TeardownMoves(c, s, step, s');
    } else {
      FlightDrops(c, s, step, s');
    }
  }

  predicate TeardownBegins(s: Manager, s': Manager) {
    s.teardown == Idle && s'.teardown == Waiting
  }

  /** How often a teardown has begun before position `i` of a run. */
  function Teardowns(run: seq<Manager>, i: nat): nat
    requires i < |run|
  {
    if i == 0 then 0 else Teardowns(run, i - 1) + if TeardownBegins(run[i - 1], run[i]) then 1 else 0
  }

  ghost predicate DropsAt(c: Config, run: seq<Manager>, i: int) {
    0 <= i < |run| - 1 ==>
      StepsLeft(c, run[i + 1]) <= StepsLeft(c, run[i]) + if TeardownBegins(run[i], run[i + 1]) then 2 else -1
  }

  lemma StepInRunDrops(c: Config, run: seq<Manager>, i: int)
    requires c.Valid() && IsRun(c, run) && 0 <= i < |run| - 1
    ensures DropsAt(c, run, i)
  {
    RunInv(c, run, i);
    assert StepTaken(c, run, i);
    var step :| Taken(c, run[i], step, run[i + 1]);
    StepsDrop(c, run[i], step, run[i + 1]);
  }

  lemma {:induction false} StepsBounded(c: Config, run: seq<Manager>, i: nat)
    requires i < |run| && forall k :: DropsAt(c, run, k)
    ensures i + StepsLeft(c, run[i]) <= StepsLeft(c, run[0]) + 3 * Teardowns(run, i)
  {
    if i > 0 {
      StepsBounded(c, run, i - 1);
      assert DropsAt(c, run, i - 1);
    }
  }

  /** Nothing can move but a teardown that begins. */
  ghost predicate Stuck(c: Config, s: Manager) {
    forall step: Step :: Enabled(c, s, step) ==> step == BeginTeardown
  }

  /**
   Runs are bounded up to the number of teardowns that begin, whatever fails and in whatever
   order calls, starts and teardown interleave; and a run over an acyclic graph that cannot go
   on has left no call, no start and no teardown unfinished.
   */
  lemma StartsEnd(c: Config, run: seq<Manager>, i: nat)
    requires c.Valid() && IsRun(c, run) && i < |run|
    ensures i + StepsLeft(c, run[i]) <= StepsLeft(c, Init(c)) + 3 * Teardowns(run, i)
    ensures c.g.Valid() && Acyclic(c.g) && Stuck(c, run[i]) ==> Quiescent(run[i])
  {
    forall k | 0 <= k < |run| - 1 ensures DropsAt(c, run, k) {
      StepInRunDrops(c, run, k);
    }
    assert forall k :: DropsAt(c, run, k);
    StepsBounded(c, run, i);
    if c.g.Valid() && Acyclic(c.g) && !Quiescent(run[i]) {
      var step := StartProgress(c, run, i);
      assert Enabled(c, run[i], step);
    }
  }

  // Aliases -------------------------------------------------------------------------------

  datatype Kind = ResourceNode | AliasNode(actual: TargetLabel) | OtherNode

  ghost predicate Follows(nodes: map<TargetLabel, Kind>, a: TargetLabel, b: TargetLabel) {
    a in nodes && nodes[a] == AliasNode(b)
  }

  /** Each label but the last is an alias of the next one. */
  ghost predicate AliasChain(nodes: map<TargetLabel, Kind>, p: seq<TargetLabel>) {
    |p| > 0 && forall i :: FollowedAt(nodes, p, i)
  }

  ghost predicate FollowedAt(nodes: map<TargetLabel, Kind>, p: seq<TargetLabel>, i: int) {
    0 <= i < |p| - 1 ==> Follows(nodes, p[i], p[i + 1])
  }

  ghost predicate LeadsTo(nodes: map<TargetLabel, Kind>, a: TargetLabel, r: TargetLabel) {
    r in nodes && nodes[r] == ResourceNode && exists p :: AliasChain(nodes, p) && p[0] == a && p[|p| - 1] == r
  }

  lemma {:induction false} ChainStays(nodes: map<TargetLabel, Kind>, seen: set<TargetLabel>, p: seq<TargetLabel>)
    requires AliasChain(nodes, p) && p[0] in seen
    requires forall a, b :: a in seen && Follows(nodes, a, b) ==> b in seen
    ensures p[|p| - 1] in seen
    decreases |p|
  {
    if |p| > 1 {
      var front := p[..|p| - 1];
      forall i ensures FollowedAt(nodes, front, i) {
        assert FollowedAt(nodes, p, i);
      }
      ChainStays(nodes, seen, front);
      assert FollowedAt(nodes, p, |p| - 2);
    }
  }

  /** resolveResourceDependency finds the resource behind a chain of aliases, if there is one. */
  method ResolveResourceDependency(nodes: map<TargetLabel, Kind>, dependency: TargetLabel)
    returns (resource: Option<TargetLabel>)
    ensures forall r :: resource == Some(r) <==> LeadsTo(nodes, dependency, r)
  {
    var current := dependency;
    var visited: set<TargetLabel> := {};
    ghost var path := [dependency];
    while current in nodes
      invariant AliasChain(nodes, path) && path[0] == dependency && path[|path| - 1] == current
      invariant dependency in visited + {current} && visited <= nodes.Keys
      invariant forall a :: a in visited ==> nodes[a].AliasNode? && nodes[a].actual in visited + {current}
      decreases nodes.Keys - visited
    {
      if current in visited {
        OnlyFrom(nodes, visited, dependency, current);
        return None;
      }
      match nodes[current]
      case ResourceNode =>
        OnlyFrom(nodes, visited + {current}, dependency, current);
        return Some(current);
      case AliasNode(actual) =>
        visited := visited + {current};
        ghost var longer := path + [actual];
        forall i ensures FollowedAt(nodes, longer, i) {
          assert FollowedAt(nodes, path, i);
        }
        path := longer;
        current := actual;
      case OtherNode =>
        OnlyFrom(nodes, visited + {current}, dependency, current);
        return None;
    }
    OnlyFrom(nodes, visited + {current}, dependency, current);
    return None;
  }

  /** Only `last` can be the resource that the chain from `start` leads to. */
  lemma OnlyFrom(nodes: map<TargetLabel, Kind>, seen: set<TargetLabel>, start: TargetLabel, last: TargetLabel)
    requires start in seen && forall a, b :: a in seen && Follows(nodes, a, b) ==> b in seen
    requires forall a :: a in seen && a != last ==> a in nodes && nodes[a].AliasNode?
    ensures forall r :: LeadsTo(nodes, start, r) ==> r == last
  {
    forall r | LeadsTo(nodes, start, r) ensures r == last {
      var p :| AliasChain(nodes, p) && p[0] == start && p[|p| - 1] == r;
      ChainStays(nodes, seen, p);
    }
  }
}
