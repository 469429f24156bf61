/**
 The concurrent walk (internal/dag/graph_walker.go) as a state machine. One routine per
 selected node waits for its ready or cancel message; completions are recorded and fanned
 out one message at a time while doneMutex is held. Every step is one indivisible action of
 one goroutine, so a run is one interleaving.
 */
module Walkers {
  import opened Results
  import opened Labels
  import opened Digraphs
  import opened Sums

  datatype Config = Config(g: Digraph, selected: set<TargetLabel>, failFast: bool) {
    /** The nodes Walk starts itself. */
    function Roots(): set<TargetLabel> {
      set n | n in selected && g.In(n) == []
    }

    ghost predicate Valid() {
      g.Valid() && selected <= g.nodes
    }

    /** Every dependency of a selected node is selected. */
    ghost predicate DependencyClosed() {
      forall a, n :: n in selected && g.Edge(a, n) ==> a in selected
    }
  }

  /** What the walk callback returns: success, an error, or context.Canceled. */
  datatype Outcome = Succeeded(hit: bool) | Failed | Interrupted

  /** What the walker records; a success says whether it was a cache hit. */
  datatype Completion = Success(hit: bool) | Failure

  datatype Routine = Waiting | Running | Returned(result: Completion) | Completing | Exited

  /** A message that onComplete still has to send. */
  datatype Message = StartIfSatisfied(n: TargetLabel) | Cancel(n: TargetLabel)

  /** The goroutine that called Walk. */
  datatype Main = Starting(roots: set<TargetLabel>) | Done | Stopped(reportsError: bool)

  datatype Walk = Walk(
    main: Main,
    routine: map<TargetLabel, Routine>,
    ready: set<TargetLabel>,
    cancelled: set<TargetLabel>,
    completions: map<TargetLabel, Completion>,
    failFastTriggered: bool,
    contextCancelled: bool,
    cancelling: set<TargetLabel>,
    holder: Option<TargetLabel>,
    todo: seq<Message>,
    calls: seq<TargetLabel>)
  {
    predicate CompletedOk(n: TargetLabel) {
      n in completions && completions[n].Success?
    }

    predicate CompletedBadly(n: TargetLabel) {
      n in completions && completions[n].Failure?
    }

    /** The dependency check of onComplete. */
    predicate Satisfied(g: Digraph, n: TargetLabel) {
      forall d :: d in g.In(n) ==> CompletedOk(d)
    }
  }

  function Init(c: Config): Walk {
    Walk(Starting(c.Roots()), map n | n in c.selected :: Waiting, {}, {}, map[], false, false, {}, None, [], [])
  }

  datatype Step =
    | StartRoot(n: TargetLabel)
    | Receive(n: TargetLabel)
    | Stop(n: TargetLabel)
    | Return(n: TargetLabel, outcome: Outcome)
    | Record(n: TargetLabel, descendants: seq<TargetLabel>)
    | SendNext
    | Release
    | CancelOne(n: TargetLabel)
    | Interrupt
    | FinishWalk
    | StopWalk

  ghost predicate Enabled(c: Config, s: Walk, step: Step) {
    match step
    case StartRoot(n) => s.main.Starting? && n in s.main.roots
    case Receive(n) => n in s.routine && s.routine[n] == Waiting && n in s.ready
    case Stop(n) => n in s.routine && s.routine[n] == Waiting && n in s.cancelled
    case Return(n, outcome) =>
      n in s.routine && s.routine[n] == Running && (outcome == Interrupted ==> s.contextCancelled)
    case Record(n, descendants) =>
      n in s.routine && s.routine[n].Returned? && s.holder == None
      && forall d :: d in descendants <==> Reaches(c.g, n, d)
    case SendNext => s.holder.Some? && s.todo != []
    case Release => s.holder.Some? && s.holder.value in s.routine && s.todo == []
    case CancelOne(n) => n in s.cancelling
    case Interrupt => !s.contextCancelled
    case FinishWalk => s.main == Starting({}) && forall n :: n in s.routine ==> s.routine[n] == Exited
    case StopWalk => s.main == Starting({}) && s.contextCancelled
  }

  function StartMessages(ns: seq<TargetLabel>): (ms: seq<Message>)
    ensures forall n :: StartIfSatisfied(n) in ms <==> n in ns
    ensures forall n :: Cancel(n) !in ms
  {
    if ns == [] then [] else [StartIfSatisfied(ns[0])] + StartMessages(ns[1..])
  }

  function CancelMessages(ns: seq<TargetLabel>): (ms: seq<Message>)
    ensures forall n :: Cancel(n) in ms <==> n in ns
    ensures forall n :: StartIfSatisfied(n) !in ms
  {
    if ns == [] then [] else [Cancel(ns[0])] + CancelMessages(ns[1..])
  }

  /** onComplete up to the messages it sends, which stay in `todo`. */
  function OnComplete(c: Config, s: Walk, n: TargetLabel, result: Completion, descendants: seq<TargetLabel>): Walk {
    var recorded := s.(routine := s.routine[n := Completing], holder := Some(n), todo := [],
                       completions := s.completions[n := result]);
    if s.failFastTriggered then recorded
    else if result.Success? then recorded.(todo := StartMessages(c.g.Out(n)))
    else if c.failFast then
      recorded.(failFastTriggered := true, contextCancelled := true, cancelling := s.cancelling + c.g.nodes)
    else recorded.(todo := CancelMessages(descendants))
  }

  /** startNode and cancelNode ignore nodes without a routine. */
  function Send(c: Config, s: Walk, m: Message): Walk {
    match m
    case StartIfSatisfied(n) =>
      if s.Satisfied(c.g, n) && n in s.routine then s.(ready := s.ready + {n}) else s
    case Cancel(n) =>
      if n in s.routine then s.(cancelled := s.cancelled + {n}) else s
  }

  ghost function Apply(c: Config, s: Walk, step: Step): Walk
    requires Enabled(c, s, step)
  {
    match step
    case StartRoot(n) => s.(main := Starting(s.main.roots - {n}), ready := s.ready + {n})
    case Receive(n) => s.(routine := s.routine[n := Running], calls := s.calls + [n])
    case Stop(n) => s.(routine := s.routine[n := Exited])
    case Return(n, outcome) =>
      s.(routine := s.routine[n :=
        match outcome
        case Succeeded(hit) => Returned(Success(hit))
        case Failed => Returned(Failure)
        case Interrupted => Exited])
    case Record(n, descendants) => OnComplete(c, s, n, s.routine[n].result, descendants)
    case SendNext => Send(c, s, s.todo[0]).(todo := s.todo[1..])
    case Release => s.(routine := s.routine[s.holder.value := Exited], holder := None)
    case CancelOne(n) => Send(c, s, Cancel(n)).(cancelling := s.cancelling - {n})
    case Interrupt => s.(contextCancelled := true)
    case FinishWalk => s.(main := Done)
    case StopWalk => s.(main := Stopped(!s.failFastTriggered), cancelling := s.cancelling + c.g.nodes)
  }

  ghost predicate SomeFailure(s: Walk) {
    exists a :: s.CompletedBadly(a)
  }

  ghost predicate Next(c: Config, s: Walk, s': Walk) {
    exists step :: Enabled(c, s, step) && s' == Apply(c, s, step)
  }

  ghost predicate StepTaken(c: Config, run: seq<Walk>, i: int) {
    0 <= i < |run| - 1 ==> Next(c, run[i], run[i + 1])
  }

  /** One interleaving, from the start of the walk. */
  ghost predicate IsRun(c: Config, run: seq<Walk>) {
    && |run| >= 1
    && run[0] == Init(c)
    && forall i :: StepTaken(c, run, i)
  }

  // The invariant ----------------------------------------------------------------

  /** A callback runs once, for a ready node, and records its completion after it returned. */
  ghost predicate CallInv(c: Config, s: Walk) {
    && s.routine.Keys == c.selected
    && NoDuplicates(s.calls)
    && (forall n :: n in s.calls ==> n in s.ready && n in s.routine && s.routine[n] != Waiting)
    && (forall n ::
          n in s.routine && (s.routine[n] == Running || s.routine[n].Returned? || s.routine[n] == Completing) ==>
          n in s.calls)
    && (forall n :: n in s.completions ==> n in s.calls && (s.routine[n] == Completing || s.routine[n] == Exited))
    && (s.main == Done ==> forall n :: n in s.routine ==> s.routine[n] == Exited)
  }

  /** The one routine inside onComplete holds doneMutex, and only it has messages to send. */
  ghost predicate LockInv(s: Walk) {
    && (forall n :: n in s.routine && s.routine[n] == Completing ==> s.holder == Some(n))
    && (s.holder.Some? ==>
          s.holder.value in s.completions && s.holder.value in s.routine && s.routine[s.holder.value] == Completing)
    && (s.holder == None ==> s.todo == [])
  }

  /** A ready node has only successful dependencies, and a satisfied node is or will be ready. */
  ghost predicate ReadyInv(c: Config, s: Walk) {
    && s.ready <= c.selected
    && (forall n :: n in s.ready ==> s.Satisfied(c.g, n))
    && (s.main.Starting? ==> s.main.roots <= c.Roots())
    && (forall n :: n in c.Roots() ==> n in s.ready || (s.main.Starting? && n in s.main.roots))
    && (forall n :: n in c.selected && c.g.In(n) != [] && s.Satisfied(c.g, n) ==>
          n in s.ready || s.failFastTriggered || StartIfSatisfied(n) in s.todo)
  }

  /** Under fail-fast the first recorded failure cancels the whole walk. */
  ghost predicate TriggerInv(c: Config, s: Walk) {
    && (s.failFastTriggered ==> c.failFast && s.contextCancelled && s.todo == [])
    && (forall a :: s.CompletedBadly(a) && c.failFast ==> s.failFastTriggered)
    && (s.failFastTriggered ==> exists a :: s.CompletedBadly(a))
    && (s.failFastTriggered || s.main.Stopped? ==> c.selected <= s.cancelled + s.cancelling)
    && (s.main.Stopped? ==> s.contextCancelled)
    && (s.main.Stopped? && !s.main.reportsError ==> s.failFastTriggered)
    && (s.cancelling != {} ==> s.contextCancelled)
  }

  /** A node is cancelled exactly for a failed ancestor, unless the whole walk is. */
  ghost predicate BlameInv(c: Config, s: Walk) {
    && (forall a, d :: s.CompletedBadly(a) && !c.failFast && Reaches(c.g, a, d) && d in c.selected ==> Condemned(s, d))
    && (forall d :: Condemned(s, d) ==>
          s.contextCancelled || exists a :: s.CompletedBadly(a) && Reaches(c.g, a, d))
    && (forall n :: n in s.routine && s.routine[n] == Exited ==>
          n in s.completions || n in s.cancelled || s.contextCancelled)
  }

  ghost predicate Condemned(s: Walk, d: TargetLabel) {
    d in s.cancelled || Cancel(d) in s.todo
  }

  ghost predicate Inv(c: Config, s: Walk) {
    CallInv(c, s) && LockInv(s) && ReadyInv(c, s) && TriggerInv(c, s) && BlameInv(c, s)
  }

  lemma InitInv(c: Config)
    requires c.Valid()
    ensures Inv(c, Init(c))
  {
    forall n | n in c.selected && c.g.In(n) != [] ensures !Init(c).Satisfied(c.g, n) {
      assert c.g.In(n)[0] in c.g.In(n);
    }
  }

  /** The dependency check depends on the completions alone. */
  lemma SameSatisfied(c: Config, s: Walk, s': Walk)
    requires s'.completions == s.completions
    ensures forall n :: s'.Satisfied(c.g, n) <==> s.Satisfied(c.g, n)
  {
    assert forall d :: s'.CompletedOk(d) == s.CompletedOk(d);
  }

  lemma InvReceive(c: Config, s: Walk, n: TargetLabel)
    requires Inv(c, s) && Enabled(c, s, Receive(n))
    ensures Inv(c, Apply(c, s, Receive(n)))
  {
    SameSatisfied(c, s, Apply(c, s, Receive(n)));
    BlameSame(c, s, Apply(c, s, Receive(n)));
  }

  lemma InvStop(c: Config, s: Walk, n: TargetLabel)
    requires Inv(c, s) && Enabled(c, s, Stop(n))
    ensures Inv(c, Apply(c, s, Stop(n)))
  {
    SameSatisfied(c, s, Apply(c, s, Stop(n)));
    BlameSame(c, s, Apply(c, s, Stop(n)));
  }

  lemma InvReturn(c: Config, s: Walk, n: TargetLabel, outcome: Outcome)
    requires Inv(c, s) && Enabled(c, s, Return(n, outcome))
    ensures Inv(c, Apply(c, s, Return(n, outcome)))
  {
    SameSatisfied(c, s, Apply(c, s, Return(n, outcome)));
    BlameSame(c, s, Apply(c, s, Return(n, outcome)));
  }

  lemma InvRelease(c: Config, s: Walk)
    requires Inv(c, s) && Enabled(c, s, Release)
    ensures Inv(c, Apply(c, s, Release))
  {
    SameSatisfied(c, s, Apply(c, s, Release));
    BlameSame(c, s, Apply(c, s, Release));
  }

  lemma InvStartRoot(c: Config, s: Walk, n: TargetLabel)
    requires Inv(c, s) && Enabled(c, s, StartRoot(n))
    ensures Inv(c, Apply(c, s, StartRoot(n)))
  {
    SameSatisfied(c, s, Apply(c, s, StartRoot(n)));
    BlameSame(c, s, Apply(c, s, StartRoot(n)));
  }

  lemma InvMain(c: Config, s: Walk, step: Step)
    requires Inv(c, s) && Enabled(c, s, step) && c.selected <= c.g.nodes
    requires step == Interrupt || step == FinishWalk || step == StopWalk
    ensures Inv(c, Apply(c, s, step))
  {
    SameSatisfied(c, s, Apply(c, s, step));
    BlameSame(c, s, Apply(c, s, step));
  }

  /** Blame survives whatever leaves completions and cancellations alone and lets no routine exit unexplained. */
  lemma BlameSame(c: Config, s: Walk, s': Walk)
    requires BlameInv(c, s)
    requires s'.completions == s.completions && s'.cancelled == s.cancelled
    requires s'.todo == s.todo || forall d :: Condemned(s', d) == Condemned(s, d)
    requires s.contextCancelled ==> s'.contextCancelled
    requires forall n :: n in s'.routine && s'.routine[n] == Exited ==>
      n in s.completions || n in s.cancelled || s'.contextCancelled
    ensures BlameInv(c, s')
    ensures forall a :: s'.CompletedBadly(a) == s.CompletedBadly(a)
  {
    assert forall a :: s'.CompletedBadly(a) == s.CompletedBadly(a);
    assert forall d :: Condemned(s', d) == Condemned(s, d);
  }

  lemma InvCancelOne(c: Config, s: Walk, n: TargetLabel)
    requires Inv(c, s) && Enabled(c, s, CancelOne(n))
    ensures Inv(c, Apply(c, s, CancelOne(n)))
  {
    var s' := Apply(c, s, CancelOne(n));
    SameSatisfied(c, s, s');
    assert forall a :: s'.CompletedBadly(a) == s.CompletedBadly(a);
    assert forall d :: Condemned(s, d) ==> Condemned(s', d);
  }

  lemma InvSendStart(c: Config, s: Walk)
    requires Inv(c, s) && Enabled(c, s, SendNext) && s.todo[0].StartIfSatisfied?
    ensures Inv(c, Apply(c, s, SendNext))
  {
    var s' := Apply(c, s, SendNext);
    assert s.todo == [s.todo[0]] + s'.todo;
    ReadySend(c, s, s', s.todo[0].n);
    assert forall d :: Condemned(s', d) == Condemned(s, d);
    BlameSame(c, s, s');
  }

  lemma ReadySend(c: Config, s: Walk, s': Walk, n: TargetLabel)
    requires ReadyInv(c, s) && s.routine.Keys == c.selected
    requires s'.completions == s.completions && s'.main == s.main && s'.failFastTriggered == s.failFastTriggered
    requires s'.ready == if s.Satisfied(c.g, n) && n in c.selected then s.ready + {n} else s.ready
    requires s.todo == [StartIfSatisfied(n)] + s'.todo
    ensures ReadyInv(c, s')
  {
    SameSatisfied(c, s, s');
  }

  lemma InvSendCancel(c: Config, s: Walk)
    requires Inv(c, s) && Enabled(c, s, SendNext) && s.todo[0].Cancel?
    ensures Inv(c, Apply(c, s, SendNext))
  {
    var s' := Apply(c, s, SendNext);
    assert s.todo == [s.todo[0]] + s'.todo;
    CancelSent(c, s, s', s.todo[0].n);
  }

  lemma CancelSent(c: Config, s: Walk, s': Walk, d: TargetLabel)
    requires Inv(c, s) && s.holder.Some? && s.todo == [Cancel(d)] + s'.todo
    requires s' == s.(todo := s'.todo, cancelled := if d in c.selected then s.cancelled + {d} else s.cancelled)
    ensures Inv(c, s')
  {
    CallsStay(c, s, s');
    ReadyStays(c, s, s', d);
    TriggerStays(c, s, s');
    BlameSend(c, s, s', d);
  }

  lemma TriggerStays(c: Config, s: Walk, s': Walk)
    requires TriggerInv(c, s) && s.todo != [] && s'.completions == s.completions && s.cancelled <= s'.cancelled
    requires s'.failFastTriggered == s.failFastTriggered && s'.contextCancelled == s.contextCancelled
    requires s'.main == s.main && s'.cancelling == s.cancelling
    ensures TriggerInv(c, s')
  {
    assert forall a :: s'.CompletedBadly(a) == s.CompletedBadly(a);
  }

  lemma CallsStay(c: Config, s: Walk, s': Walk)
    requires CallInv(c, s) && LockInv(s) && s'.routine == s.routine && s'.calls == s.calls && s'.ready == s.ready
    requires s'.completions == s.completions && s'.main == s.main && s'.holder == s.holder && s.holder.Some?
    ensures CallInv(c, s') && LockInv(s')
  {
  }

  lemma ReadyStays(c: Config, s: Walk, s': Walk, d: TargetLabel)
    requires ReadyInv(c, s) && s'.completions == s.completions && s'.ready == s.ready && s'.main == s.main
    requires s'.failFastTriggered == s.failFastTriggered
    requires s.todo == [Cancel(d)] + s'.todo
    ensures ReadyInv(c, s')
  {
    SameSatisfied(c, s, s');
  }

  lemma BlameSend(c: Config, s: Walk, s': Walk, d: TargetLabel)
    requires BlameInv(c, s) && s.routine.Keys == c.selected && s'.routine == s.routine
    requires s'.completions == s.completions && s'.contextCancelled == s.contextCancelled
    requires s'.cancelled == (if d in c.selected then s.cancelled + {d} else s.cancelled)
    requires s.todo == [Cancel(d)] + s'.todo
    ensures BlameInv(c, s')
  {
    assert forall a :: s'.CompletedBadly(a) == s.CompletedBadly(a);
    assert forall x :: x in c.selected && Condemned(s, x) ==> Condemned(s', x);
    assert Cancel(d) in s.todo;
    assert forall x :: Condemned(s', x) ==> Condemned(s, x);
  }

  /** What every branch of onComplete does first. */
  ghost predicate Recorded(s: Walk, s': Walk, n: TargetLabel, result: Completion) {
    && n in s.routine && s.routine[n].Returned? && s.holder == None
    && s'.routine == s.routine[n := Completing]
    && s'.holder == Some(n)
    && s'.completions == s.completions[n := result]
    && s'.ready == s.ready && s'.calls == s.calls && s'.cancelled == s.cancelled && s'.main == s.main
  }

  lemma CallRecord(c: Config, s: Walk, s': Walk, n: TargetLabel, result: Completion)
    requires CallInv(c, s) && LockInv(s) && Recorded(s, s', n, result)
    ensures CallInv(c, s') && LockInv(s') && n !in s.completions && s.todo == []
  {
  }

  lemma BadlyRecord(s: Walk, s': Walk, n: TargetLabel, result: Completion)
    requires Recorded(s, s', n, result) && n !in s.completions
    ensures forall a :: s'.CompletedBadly(a) <==> s.CompletedBadly(a) || (a == n && result.Failure?)
  {
  }

  lemma ReadyRecord(c: Config, s: Walk, s': Walk, n: TargetLabel, result: Completion, descendants: seq<TargetLabel>)
    requires c.Valid() && s.routine.Keys == c.selected && ReadyInv(c, s) && n !in s.completions && s.todo == []
    requires Recorded(s, s', n, result) && s' == OnComplete(c, s, n, result, descendants)
    ensures ReadyInv(c, s')
  {
    forall m | m in c.selected && c.g.In(m) != [] && s'.Satisfied(c.g, m)
      ensures m in s'.ready || s'.failFastTriggered || StartIfSatisfied(m) in s'.todo
    {
      if n in c.g.In(m) {
        EdgeMirrored(c.g, n, m);
      } else {
        assert forall d :: d in c.g.In(m) ==> s'.CompletedOk(d) && s.CompletedOk(d);
        assert s.Satisfied(c.g, m);
      }
    }
    forall m | m in s.ready ensures s'.Satisfied(c.g, m) {
      assert forall d :: d in c.g.In(m) ==> s.CompletedOk(d) && s'.CompletedOk(d);
    }
  }

  lemma TriggerRecord(c: Config, s: Walk, s': Walk, n: TargetLabel, result: Completion, descendants: seq<TargetLabel>)
    requires TriggerInv(c, s) && Recorded(s, s', n, result) && s' == OnComplete(c, s, n, result, descendants)
    requires n !in s.completions && c.selected <= c.g.nodes
    ensures TriggerInv(c, s')
  {
    BadlyRecord(s, s', n, result);
    assert s.failFastTriggered ==> exists a :: s.CompletedBadly(a) && s'.CompletedBadly(a);
    assert result.Failure? ==> s'.CompletedBadly(n);
  }

  lemma BlameRecord(c: Config, s: Walk, s': Walk, n: TargetLabel, result: Completion, descendants: seq<TargetLabel>)
    requires BlameInv(c, s) && Recorded(s, s', n, result) && s' == OnComplete(c, s, n, result, descendants)
    requires n !in s.completions && s.todo == []
    requires s.failFastTriggered ==> c.failFast
    requires forall d :: d in descendants <==> Reaches(c.g, n, d)
    ensures BlameInv(c, s')
  {
    BadlyRecord(s, s', n, result);
    assert forall d :: Condemned(s, d) ==> Condemned(s', d);
    assert forall d :: Condemned(s', d) ==> Condemned(s, d) || (s'.CompletedBadly(n) && Reaches(c.g, n, d));
  }

  lemma InvRecord(c: Config, s: Walk, n: TargetLabel, descendants: seq<TargetLabel>)
    requires c.Valid() && Inv(c, s) && Enabled(c, s, Record(n, descendants))
    ensures Inv(c, Apply(c, s, Record(n, descendants)))
  {
    var s', result := Apply(c, s, Record(n, descendants)), s.routine[n].result;
    CallRecord(c, s, s', n, result);
    ReadyRecord(c, s, s', n, result, descendants);
    TriggerRecord(c, s, s', n, result, descendants);
    BlameRecord(c, s, s', n, result, descendants);
  }

  lemma InvStep(c: Config, s: Walk, step: Step)
    requires c.Valid() && Inv(c, s) && Enabled(c, s, step)
    ensures Inv(c, Apply(c, s, step))
  {
    match step
    case StartRoot(n) => InvStartRoot(c, s, n);
    case Receive(n) => InvReceive(c, s, n);
    case Stop(n) => InvStop(c, s, n);
    case Return(n, outcome) => InvReturn(c, s, n, outcome);
    case Record(n, descendants) => InvRecord(c, s, n, descendants);
    case SendNext =>
      if s.todo[0].Cancel? {
        InvSendCancel(c, s);
      } else {
        InvSendStart(c, s);
      }
    case Release => InvRelease(c, s);
    case CancelOne(n) => InvCancelOne(c, s, n);
    case Interrupt => InvMain(c, s, step);
    case FinishWalk => InvMain(c, s, step);
    case StopWalk => InvMain(c, s, step);
  }

  lemma NextInv(c: Config, s: Walk, s': Walk)
    requires c.Valid() && Inv(c, s) && Next(c, s, s')
    ensures Inv(c, s')
  {
    var step :| Enabled(c, s, step) && s' == Apply(c, s, step);
    InvStep(c, s, step);
  }

  lemma {:induction false} RunInv(c: Config, run: seq<Walk>, i: nat)
    requires c.Valid() && IsRun(c, run) && i < |run|
    ensures Inv(c, run[i])
  {
    if i == 0 {
      InitInv(c);
    } else {
      RunInv(c, run, i - 1);
      assert StepTaken(c, run, i - 1);
      NextInv(c, run[i - 1], run[i]);
    }
  }

  /** Walk has returned and no goroutine is left. */
  ghost predicate Final(s: Walk) {
    && !s.main.Starting?
    && s.cancelling == {}
    && forall n :: n in s.routine ==> s.routine[n] == Exited
  }

  // What callbacks return is what is recorded ------------------------------------------

  /** Step `i` of the run is `step`. */
  ghost predicate Takes(c: Config, run: seq<Walk>, i: int, step: Step) {
    0 <= i < |run| - 1 && Enabled(c, run[i], step) && run[i + 1] == Apply(c, run[i], step)
  }

  /** The callback of `n` has returned with `outcome`, and nothing else has been made of that. */
  ghost predicate Reported(s: Walk, n: TargetLabel, outcome: Outcome) {
    && n in s.routine && s.routine[n] != Waiting && s.routine[n] != Running
    && (s.routine[n].Returned? ==> n !in s.completions)
    && match outcome
       case Interrupted => s.routine[n] == Exited && n !in s.completions
       case Failed => s.routine[n] == Returned(Failure) || (n in s.completions && s.completions[n] == Failure)
       case Succeeded(hit) =>
         s.routine[n] == Returned(Success(hit)) || (n in s.completions && s.completions[n] == Success(hit))
  }

  lemma ReportedStays(c: Config, s: Walk, n: TargetLabel, outcome: Outcome, step: Step)
    requires CallInv(c, s) && LockInv(s) && Reported(s, n, outcome) && Enabled(c, s, step)
    ensures Reported(Apply(c, s, step), n, outcome)
  {
    if step.Record? {
      RecordReports(c, s, n, outcome, step.n, step.descendants);
    } else if step.SendNext? || step.CancelOne? {
      SentReports(c, s, n, outcome, step);
    }
  }

  lemma RecordReports(c: Config, s: Walk, n: TargetLabel, outcome: Outcome, m: TargetLabel,
                      descendants: seq<TargetLabel>)
    requires CallInv(c, s) && Reported(s, n, outcome) && Enabled(c, s, Record(m, descendants))
    ensures Reported(Apply(c, s, Record(m, descendants)), n, outcome)
  {
  }

  lemma SentReports(c: Config, s: Walk, n: TargetLabel, outcome: Outcome, step: Step)
    requires Reported(s, n, outcome) && Enabled(c, s, step) && (step.SendNext? || step.CancelOne?)
    ensures Reported(Apply(c, s, step), n, outcome)
  {
  }

  lemma {:induction false} ReportedAfter(c: Config, run: seq<Walk>, i: nat, j: nat, n: TargetLabel, outcome: Outcome)
    requires c.Valid() && IsRun(c, run) && i < j < |run| && Takes(c, run, i, Return(n, outcome))
    ensures Reported(run[j], n, outcome)
    decreases j
  {
    RunInv(c, run, j - 1);
    if i < j - 1 {
      ReportedAfter(c, run, i, j - 1, n, outcome);
      assert StepTaken(c, run, j - 1);
      var step :| Enabled(c, run[j - 1], step) && run[j] == Apply(c, run[j - 1], step);
      ReportedStays(c, run[j - 1], n, outcome, step);
    }
  }

  /**
   What a callback has returned decides its completion at every later moment: a failure is
   recorded as a failure, a success as a success with the same cache result, and a
   cancellation leaves the node without a completion.
   */
  lemma ReturnDecides(c: Config, run: seq<Walk>, i: nat, j: nat, n: TargetLabel, outcome: Outcome)
    requires c.Valid() && IsRun(c, run) && i < j < |run| && Takes(c, run, i, Return(n, outcome))
    ensures outcome == Interrupted ==> n !in run[j].completions
    ensures outcome == Failed && n in run[j].completions ==> run[j].completions[n] == Failure
    ensures outcome.Succeeded? && n in run[j].completions ==> run[j].completions[n] == Success(outcome.hit)
    ensures outcome != Interrupted && Final(run[j]) ==> n in run[j].completions
  {
    ReportedAfter(c, run, i, j, n, outcome);
  }

  predicate HasReturned(s: Walk, n: TargetLabel) {
    n in s.completions || (n in s.routine && s.routine[n].Returned?)
  }

  lemma ReturnedByStep(c: Config, s: Walk, s': Walk, n: TargetLabel) returns (outcome: Outcome)
    requires Next(c, s, s') && HasReturned(s', n) && !HasReturned(s, n)
    ensures outcome != Interrupted && Enabled(c, s, Return(n, outcome)) && s' == Apply(c, s, Return(n, outcome))
  {
    var step :| Enabled(c, s, step) && s' == Apply(c, s, step);
    if step.Return? {
      outcome := step.outcome;
    } else if step.Record? {
      RecordReturns(c, s, n, step.n, step.descendants);
      assert false;
    } else if step.SendNext? || step.CancelOne? {
      SentReturns(c, s, n, step);
      assert false;
    } else {
      OthersReturn(c, s, n, step);
      assert false;
    }
  }

  lemma RecordReturns(c: Config, s: Walk, n: TargetLabel, m: TargetLabel, descendants: seq<TargetLabel>)
    requires Enabled(c, s, Record(m, descendants)) && HasReturned(Apply(c, s, Record(m, descendants)), n)
    ensures HasReturned(s, n)
  {
  }

  lemma OthersReturn(c: Config, s: Walk, n: TargetLabel, step: Step)
    requires Enabled(c, s, step) && !step.Return? && !step.Record? && !step.SendNext? && !step.CancelOne?
    requires HasReturned(Apply(c, s, step), n)
    ensures HasReturned(s, n)
  {
  }

  lemma SentReturns(c: Config, s: Walk, n: TargetLabel, step: Step)
    requires Enabled(c, s, step) && (step.SendNext? || step.CancelOne?) && HasReturned(Apply(c, s, step), n)
    ensures HasReturned(s, n)
  {
  }

  /** Every completion is that of a callback that has returned. */
  lemma {:induction false} CompletionReturned(c: Config, run: seq<Walk>, i: nat, n: TargetLabel)
    returns (k: nat, outcome: Outcome)
    requires c.Valid() && IsRun(c, run) && i < |run| && HasReturned(run[i], n)
    ensures k < i && outcome != Interrupted && Takes(c, run, k, Return(n, outcome))
  {
    if HasReturned(run[i - 1], n) {
      k, outcome := CompletionReturned(c, run, i - 1, n);
    } else {
      assert StepTaken(c, run, i - 1);
      k := i - 1;
      outcome := ReturnedByStep(c, run[k], run[i], n);
    }
  }

  /** The callback of `n` has succeeded, or failed, by position `i`. */
  ghost predicate CallbackSucceeded(c: Config, run: seq<Walk>, i: nat, n: TargetLabel) {
    exists k: nat, hit :: k < i && Takes(c, run, k, Return(n, Succeeded(hit)))
  }

  ghost predicate CallbackFailed(c: Config, run: seq<Walk>, i: nat, n: TargetLabel) {
    exists k: nat :: k < i && Takes(c, run, k, Return(n, Failed))
  }

  lemma CompletionsAreReturns(c: Config, run: seq<Walk>, i: nat, n: TargetLabel)
    requires c.Valid() && IsRun(c, run) && i < |run|
    ensures run[i].CompletedOk(n) ==> CallbackSucceeded(c, run, i, n)
    ensures run[i].CompletedBadly(n) ==> CallbackFailed(c, run, i, n)
  {
    if n in run[i].completions {
      var k, outcome := CompletionReturned(c, run, i, n);
      ReturnDecides(c, run, k, i, n, outcome);
    }
  }

  // Safety -------------------------------------------------------------------------

  lemma {:induction false} PathSucceeded(c: Config, s: Walk, p: seq<TargetLabel>)
    requires c.Valid() && Inv(c, s)
    requires IsPath(c.g, p) && |p| >= 2 && p[|p| - 1] in s.calls
    ensures s.CompletedOk(p[0])
    decreases |p|
  {
    var b, n := p[|p| - 2], p[|p| - 1];
    PathFront(c.g, p);
    EdgeMirrored(c.g, b, n);
    assert s.CompletedOk(b);
    if |p| > 2 {
      PathSucceeded(c, s, p[..|p| - 1]);
    }
  }

  /**
   In every interleaving, fail-fast or not, cancelled or not: a callback runs at most once
   and only after the callback of every transitive dependency has succeeded and that is
   recorded, so the successful completions always contain all ancestors of their members.
   */
  lemma WalkSafety(c: Config, run: seq<Walk>, i: nat)
    requires c.Valid() && IsRun(c, run) && i < |run|
    ensures NoDuplicates(run[i].calls)
    ensures forall a, n :: n in run[i].calls && Reaches(c.g, a, n) ==> run[i].CompletedOk(a)
    ensures forall a, n :: n in run[i].calls && Reaches(c.g, a, n) ==> CallbackSucceeded(c, run, i, a)
    ensures forall a, n :: run[i].CompletedOk(n) && Reaches(c.g, a, n) ==> run[i].CompletedOk(a)
  {
    var s := run[i];
    RunInv(c, run, i);
    forall a, n | n in s.calls && Reaches(c.g, a, n) ensures s.CompletedOk(a) && CallbackSucceeded(c, run, i, a) {
      var p :| PathBetween(c.g, p, a, n) && |p| >= 2;
      PathSucceeded(c, s, p);
      CompletionsAreReturns(c, run, i, a);
    }
  }

  lemma StartsAfterFailure(c: Config, s: Walk, step: Step)
    requires CallInv(c, s) && TriggerInv(c, s) && Enabled(c, s, step)
    requires c.failFast && SomeFailure(s)
    ensures Apply(c, s, step).ready <= s.ready + (if s.main.Starting? then s.main.roots else {})
    ensures SomeFailure(Apply(c, s, step))
  {
    var a :| s.CompletedBadly(a);
    assert Apply(c, s, step).CompletedBadly(a);
  }

  lemma NextAfterFailure(c: Config, s: Walk, s': Walk)
    requires CallInv(c, s) && TriggerInv(c, s) && Next(c, s, s')
    requires s.main.Starting? ==> s.main.roots <= c.Roots()
    requires c.failFast && SomeFailure(s)
    ensures s'.ready <= s.ready + c.Roots()
    ensures SomeFailure(s')
  {
    var step :| Enabled(c, s, step) && s' == Apply(c, s, step);
    StartsAfterFailure(c, s, step);
  }

  lemma NextInRunAfterFailure(c: Config, run: seq<Walk>, i: nat)
    requires c.Valid() && IsRun(c, run) && i + 1 < |run|
    requires c.failFast && SomeFailure(run[i])
    ensures run[i + 1].ready <= run[i].ready + c.Roots()
    ensures SomeFailure(run[i + 1])
  {
    RunInv(c, run, i);
    assert StepTaken(c, run, i);
    NextAfterFailure(c, run[i], run[i + 1]);
  }

  /** Under fail-fast no node with dependencies becomes ready once a failure is recorded. */
  lemma {:induction false} FailFastStopsStarts(c: Config, run: seq<Walk>, i: nat, j: nat)
    requires c.Valid() && IsRun(c, run) && i <= j < |run|
    requires c.failFast && SomeFailure(run[i])
    ensures run[j].ready <= run[i].ready + c.Roots()
    ensures SomeFailure(run[j])
    decreases j
  {
    if i < j {
      FailFastStopsStarts(c, run, i, j - 1);
      NextInRunAfterFailure(c, run, j - 1);
    }
  }

  /** Walk hides a cancellation from its caller only after a recorded failure under fail-fast. */
  lemma SilentStop(c: Config, run: seq<Walk>, i: nat)
    requires c.Valid() && IsRun(c, run) && i < |run|
    requires run[i].main == Stopped(false)
    ensures c.failFast && SomeFailure(run[i])
  {
    RunInv(c, run, i);
  }

  /**
   The call of Walk that stops for a cancellation reports it, for good, unless under fail-fast
   a failure had been recorded by then.
   */
  lemma {:induction false} StopReports(c: Config, run: seq<Walk>, i: nat, j: nat)
    requires c.Valid() && IsRun(c, run) && i < j < |run| && Takes(c, run, i, StopWalk)
    ensures run[j].main == Stopped(!(c.failFast && SomeFailure(run[i])))
    decreases j
  {
    RunInv(c, run, i);
    if i < j - 1 {
      StopReports(c, run, i, j - 1);
      assert StepTaken(c, run, j - 1);
      var step :| Enabled(c, run[j - 1], step) && run[j] == Apply(c, run[j - 1], step);
      StoppedStays(c, run[j - 1], step);
    }
  }

  lemma StoppedStays(c: Config, s: Walk, step: Step)
    requires s.main.Stopped? && Enabled(c, s, step)
    ensures Apply(c, s, step).main == s.main
  {
  }

  lemma CancelStep(c: Config, s: Walk, step: Step)
    requires TriggerInv(c, s) && Enabled(c, s, step) && Apply(c, s, step).contextCancelled && !s.contextCancelled
    ensures step == Interrupt || (c.failFast && SomeFailure(Apply(c, s, step)))
  {
    if step.Record? {
      assert c.failFast && Apply(c, s, step).CompletedBadly(step.n);
    } else if step.SendNext? || step.CancelOne? {
      SendKeepsContext(c, s, step);
      assert false;
    }
  }

  lemma SendKeepsContext(c: Config, s: Walk, step: Step)
    requires Enabled(c, s, step) && (step.SendNext? || step.CancelOne?)
    ensures Apply(c, s, step).contextCancelled == s.contextCancelled
  {
  }

  /** The walk is cancelled only from outside, or for a recorded failure under fail-fast. */
  lemma {:induction false} CancelledForCause(c: Config, run: seq<Walk>, i: nat)
    requires c.Valid() && IsRun(c, run) && i < |run| && run[i].contextCancelled
    ensures (c.failFast && SomeFailure(run[i])) || exists k :: 0 <= k < i && Takes(c, run, k, Interrupt)
  {
    RunInv(c, run, i - 1);
    if run[i - 1].contextCancelled {
      CancelledForCause(c, run, i - 1);
      if c.failFast && SomeFailure(run[i - 1]) {
        NextInRunAfterFailure(c, run, i - 1);
      }
    } else {
      assert StepTaken(c, run, i - 1);
      var step :| Enabled(c, run[i - 1], step) && run[i] == Apply(c, run[i - 1], step);
      CancelStep(c, run[i - 1], step);
      assert step == Interrupt ==> Takes(c, run, i - 1, Interrupt);
    }
  }

  // Progress -------------------------------------------------------------------------

  lemma {:induction false} Enumerate(ns: set<TargetLabel>) returns (r: seq<TargetLabel>)
    ensures forall n :: n in r <==> n in ns
  {
    if ns == {} {
      r := [];
    } else {
      var n :| n in ns;
      var rest := Enumerate(ns - {n});
      r := [n] + rest;
    }
  }

  /**
   On an acyclic graph with a dependency-closed selection the walk never gets stuck: unless
   everything has ended, some goroutine can act, without help from an interrupt.
   */
  lemma WalkProgress(c: Config, run: seq<Walk>, i: nat)
    requires c.Valid() && IsRun(c, run) && i < |run|
    requires Acyclic(c.g) && c.DependencyClosed()
    ensures Final(run[i]) || exists step :: step != Interrupt && Enabled(c, run[i], step)
  {
    RunInv(c, run, i);
    Progress(c, run[i]);
  }

  lemma Progress(c: Config, s: Walk)
    requires c.Valid() && Inv(c, s) && Acyclic(c.g) && c.DependencyClosed()
    ensures Final(s) || exists step :: step != Interrupt && Enabled(c, s, step)
  {
    if s.holder.Some? {
      assert Enabled(c, s, SendNext) || Enabled(c, s, Release);
    } else if n :| n in s.routine && s.routine[n] == Running {
      assert Enabled(c, s, Return(n, Failed));
    } else if n :| n in s.routine && s.routine[n].Returned? {
      var descendants := Enumerate(Descendants(c.g, n));
      forall d ensures d in descendants <==> Reaches(c.g, n, d) {
        if Reaches(c.g, n, d) {
          ReachesNodes(c.g, n, d);
        }
      }
      assert Enabled(c, s, Record(n, descendants));
    } else if n :| s.main.Starting? && n in s.main.roots {
      assert Enabled(c, s, StartRoot(n));
    } else if n :| n in s.cancelling {
      assert Enabled(c, s, CancelOne(n));
    } else {
      ProgressOfWaiters(c, s);
    }
  }

  lemma ProgressOfWaiters(c: Config, s: Walk)
    requires c.Valid() && Inv(c, s) && Acyclic(c.g) && c.DependencyClosed()
    requires s.holder == None && s.cancelling == {} && (s.main.Starting? ==> s.main.roots == {})
    requires forall n :: n in s.routine ==> s.routine[n] == Exited || s.routine[n] == Waiting
    ensures Final(s) || exists step :: step != Interrupt && Enabled(c, s, step)
  {
    if n :| n in s.routine && s.routine[n] == Waiting {
      var waiting := set m | m in s.routine && s.routine[m] == Waiting;
      var m := Minimal(c.g, waiting, n);
      FirstWaiterMoves(c, s, m);
      assert Enabled(c, s, Receive(m)) || Enabled(c, s, Stop(m)) || Enabled(c, s, StopWalk);
    } else {
      assert s.main.Starting? ==> Enabled(c, s, FinishWalk);
    }
  }

  /** With nobody running, a waiting node without waiting ancestors has a message or gets one. */
  lemma FirstWaiterMoves(c: Config, s: Walk, m: TargetLabel)
    requires c.Valid() && Inv(c, s) && c.DependencyClosed()
    requires s.holder == None
    requires forall n :: n in s.routine ==> s.routine[n] == Exited || s.routine[n] == Waiting
    requires m in s.routine && s.routine[m] == Waiting
    requires forall n :: n in s.routine && s.routine[n] == Waiting ==> !Reaches(c.g, n, m)
    ensures || m in s.ready || m in s.cancelled
            || s.cancelling != {}
            || (s.main.Starting? && (s.contextCancelled || m in s.main.roots))
  {
    if m !in s.ready && m !in s.cancelled && s.cancelling == {} && !(s.main.Starting? && m in s.main.roots) {
      assert !s.failFastTriggered && !s.main.Stopped? && s.main != Done && !Condemned(s, m);
      assert m !in c.Roots();
      var d :| d in c.g.In(m) && !s.CompletedOk(d);
      EdgeMirrored(c.g, d, m);
      EdgeReaches(c.g, d, m);
      assert !s.CompletedBadly(d);
      if !s.contextCancelled {
        assert Condemned(s, d);
        var a :| s.CompletedBadly(a) && Reaches(c.g, a, d);
        ReachesTransitive(c.g, a, d, m);
        assert false;
      }
    }
  }

  // Termination ------------------------------------------------------------------------

  function Weight(r: Routine): nat {
    match r
    case Waiting => 4
    case Running => 3
    case Returned(_) => 2
    case Completing => 1
    case Exited => 0
  }

  function Weights(routine: map<TargetLabel, Routine>): map<TargetLabel, nat> {
    map n | n in routine :: Weight(routine[n])
  }

  lemma WeightDrops(r: map<TargetLabel, Routine>, n: TargetLabel, next: Routine)
    requires n in r && Weight(next) < Weight(r[n])
    ensures Sum(Weights(r[n := next])) < Sum(Weights(r))
  {
    SumDrops(Weights(r[n := next]), Weights(r), n, 1);
  }

  /** The major part of the measure: phases still ahead of the routines, the context and Walk itself. */
  ghost function Major(s: Walk): nat {
    Sum(Weights(s.routine)) + (if s.contextCancelled then 0 else 1) + (if s.main.Starting? then 1 else 0)
  }

  /** The minor part: messages still to be sent. */
  function Minor(s: Walk): nat {
    |s.todo| + |s.cancelling| + (if s.main.Starting? then |s.main.roots| else 0)
  }

  ghost predicate Decreases(s: Walk, s': Walk) {
    Major(s') < Major(s) || (Major(s') == Major(s) && Minor(s') < Minor(s))
  }

  /** Every step decreases the measure lexicographically, so every walk ends. */
  lemma WalkTerminates(c: Config, run: seq<Walk>, i: nat)
    requires c.Valid() && IsRun(c, run) && i + 1 < |run|
    ensures Decreases(run[i], run[i + 1])
  {
    RunInv(c, run, i);
    assert StepTaken(c, run, i);
    var step :| Enabled(c, run[i], step) && run[i + 1] == Apply(c, run[i], step);
    MeasureDrops(c, run[i], step);
  }

  lemma RoutineMoves(s: Walk, s': Walk, n: TargetLabel, next: Routine)
    requires n in s.routine && Weight(next) < Weight(s.routine[n])
    requires s'.routine == s.routine[n := next] && s'.main == s.main && (s.contextCancelled ==> s'.contextCancelled)
    ensures Decreases(s, s')
  {
    WeightDrops(s.routine, n, next);
  }

  lemma MessageGone(s: Walk, s': Walk)
    requires s'.routine == s.routine && s'.contextCancelled == s.contextCancelled
    requires s'.main.Starting? == s.main.Starting? && Minor(s') < Minor(s)
    ensures Decreases(s, s')
  {
  }

  lemma MainMoves(s: Walk, s': Walk)
    requires s'.routine == s.routine
    requires (s.contextCancelled ==> s'.contextCancelled) && (s'.main.Starting? ==> s.main.Starting?)
    requires s.contextCancelled != s'.contextCancelled || s.main.Starting? != s'.main.Starting?
    ensures Decreases(s, s')
  {
  }

  lemma MeasureDrops(c: Config, s: Walk, step: Step)
    requires LockInv(s) && Enabled(c, s, step)
    ensures Decreases(s, Apply(c, s, step))
  {
    if step.StartRoot? || step.SendNext? || step.CancelOne? {
      MessageDrops(c, s, step);
    } else if step == Interrupt || step == FinishWalk || step == StopWalk {
      MainMoves(s, Apply(c, s, step));
    } else {
      RoutineDrops(c, s, step);
    }
  }

  lemma MessageDrops(c: Config, s: Walk, step: Step)
    requires Enabled(c, s, step) && (step.StartRoot? || step.SendNext? || step.CancelOne?)
    ensures Decreases(s, Apply(c, s, step))
  {
    if step.SendNext? {
      SentDrops(c, s);
    } else {
      MessageGone(s, Apply(c, s, step));
    }
  }

  lemma SentDrops(c: Config, s: Walk)
    requires Enabled(c, s, SendNext)
    ensures Decreases(s, Apply(c, s, SendNext))
  {
    MessageGone(s, Apply(c, s, SendNext));
  }

  lemma RoutineDrops(c: Config, s: Walk, step: Step)
    requires LockInv(s) && Enabled(c, s, step)
    requires step.Receive? || step.Stop? || step.Return? || step.Record? || step.Release?
    ensures Decreases(s, Apply(c, s, step))
  {
    var n := if step.Release? then s.holder.value else step.n;
    RoutineMoves(s, Apply(c, s, step), n, Apply(c, s, step).routine[n]);
  }

  // Outcome ----------------------------------------------------------------------------

  /**
   When a walk that was never cancelled has ended, exactly the selected nodes without a
   failed strict ancestor have a completion, and failed are those whose callback has failed.
   */
  lemma WalkOutcome(c: Config, run: seq<Walk>)
    requires c.Valid() && IsRun(c, run)
    requires Acyclic(c.g) && c.DependencyClosed()
    requires Final(run[|run| - 1]) && !run[|run| - 1].contextCancelled
    ensures var s := run[|run| - 1];
      forall n :: n in s.completions <==> n in c.selected && !exists a :: s.CompletedBadly(a) && Reaches(c.g, a, n)
    ensures var s := run[|run| - 1];
      forall a :: s.CompletedBadly(a) <==> CallbackFailed(c, run, |run| - 1, a)
  {
    var s := run[|run| - 1];
    forall a ensures s.CompletedBadly(a) <==> CallbackFailed(c, run, |run| - 1, a) {
      CompletionsAreReturns(c, run, |run| - 1, a);
      if CallbackFailed(c, run, |run| - 1, a) {
        var k: nat :| k < |run| - 1 && Takes(c, run, k, Return(a, Failed));
        ReturnDecides(c, run, k, |run| - 1, a, Failed);
      }
    }
    RunInv(c, run, |run| - 1);
    forall n | n in s.completions ensures !exists a :: s.CompletedBadly(a) && Reaches(c.g, a, n) {
      WalkSafety(c, run, |run| - 1);
    }
    forall n | n in c.selected && !exists a :: s.CompletedBadly(a) && Reaches(c.g, a, n)
      ensures n in s.completions
    {
      assert s.routine[n] == Exited;
      if n in s.cancelled {
        assert Condemned(s, n);
      }
    }
  }

  /** In particular a walk without failures completes every selected node. */
  lemma AllSucceed(c: Config, run: seq<Walk>)
    requires c.Valid() && IsRun(c, run)
    requires Acyclic(c.g) && c.DependencyClosed()
    requires Final(run[|run| - 1]) && !run[|run| - 1].contextCancelled
    requires !SomeFailure(run[|run| - 1])
    ensures run[|run| - 1].completions.Keys == c.selected
    ensures forall n :: n in c.selected ==> run[|run| - 1].CompletedOk(n)
  {
    WalkOutcome(c, run);
    var s := run[|run| - 1];
    forall n | n in s.completions ensures s.CompletedOk(n) {
      assert !s.CompletedBadly(n);
    }
  }
}
