/**
 The keyed mutex (internal/maps/mutex_map.go) as a state machine. Each step is one operation
 on the main mutex, the map, one waiter counter or one named mutex; the steps of all threads
 interleave freely. Threads unlock only names they hold.
 */
module MutexMaps {
  import opened Results

  type Thread = nat

  /** Identity of a wrappedMutex. */
  type Ref = nat

  /** How far a thread has got in Lock or Unlock. */
  datatype Pc =
    | Idle
    | Locking(name: string)                // Lock holds the main mutex
    | Found(name: string, lock: Ref)       // and has looked the named mutex up, or created it
    | Counted(name: string, lock: Ref)     // and has counted itself as a waiter
    | Waiting(name: string, lock: Ref)     // the main mutex is released
    | Acquired(name: string, lock: Ref)    // the named mutex is locked
    | Holding(name: string, lock: Ref)     // Lock has returned
    | Unlocking(name: string, lock: Ref)   // Unlock holds the main mutex
    | Checked(name: string, lock: Ref)     // and has looked at the waiters
    | Released(name: string)               // and has unlocked the named mutex
    | Missing(name: string)                // or found no mutex for the name

  datatype State = State(
    main: Option<Thread>,
    locks: map<string, Ref>,
    owner: map<Ref, Option<Thread>>,
    waiters: map<Ref, int>,
    pc: map<Thread, Pc>)

  datatype Op = Lock(name: string) | Lookup(created: Ref) | Inc | LeaveMain | Acquire | Dec | Unlock | Check | Release

  function Init(threads: set<Thread>): State {
    State(None, map[], map[], map[], map t | t in threads :: Idle)
  }

  predicate InMain(p: Pc) {
    p.Locking? || p.Found? || p.Counted? || p.Unlocking? || p.Checked? || p.Released? || p.Missing?
  }

  predicate Enabled(s: State, t: Thread, op: Op) {
    t in s.pc &&
    match op
    case Lock(_) => s.pc[t] == Idle && s.main == None
    case Lookup(created) => s.pc[t].Locking? && created !in s.owner
    case Inc => s.pc[t].Found? && s.pc[t].lock in s.waiters
    case LeaveMain => s.pc[t].Counted? || s.pc[t].Released? || s.pc[t].Missing?
    case Acquire => s.pc[t].Waiting? && s.pc[t].lock in s.owner && s.owner[s.pc[t].lock] == None
    case Dec => s.pc[t].Acquired? && s.pc[t].lock in s.waiters
    case Unlock => s.pc[t].Holding? && s.main == None
    case Check => s.pc[t].Unlocking? && (s.pc[t].name in s.locks ==> s.locks[s.pc[t].name] in s.waiters)
    case Release => s.pc[t].Checked?
  }

  function Apply(s: State, t: Thread, op: Op): State
    requires Enabled(s, t, op)
  {
    var p := s.pc[t];
    match op
    case Lock(name) => s.(main := Some(t), pc := s.pc[t := Locking(name)])
    case Lookup(created) =>
      if p.name in s.locks then s.(pc := s.pc[t := Found(p.name, s.locks[p.name])])
      else s.(locks := s.locks[p.name := created], owner := s.owner[created := None],
              waiters := s.waiters[created := 0],
              pc := s.pc[t := Found(p.name, created)])
    case Inc => s.(waiters := s.waiters[p.lock := s.waiters[p.lock] + 1], pc := s.pc[t := Counted(p.name, p.lock)])
    case LeaveMain => s.(main := None, pc := s.pc[t := if p.Counted? then Waiting(p.name, p.lock) else Idle])
    case Acquire => s.(owner := s.owner[p.lock := Some(t)], pc := s.pc[t := Acquired(p.name, p.lock)])
    case Dec => s.(waiters := s.waiters[p.lock := s.waiters[p.lock] - 1], pc := s.pc[t := Holding(p.name, p.lock)])
    case Unlock => s.(main := Some(t), pc := s.pc[t := Unlocking(p.name, p.lock)])
    case Check =>
      if p.name !in s.locks then s.(pc := s.pc[t := Missing(p.name)])
      else if s.waiters[s.locks[p.name]] == 0
      then s.(locks := s.locks - {p.name}, pc := s.pc[t := Checked(p.name, s.locks[p.name])])
      else s.(pc := s.pc[t := Checked(p.name, s.locks[p.name])])
    case Release => s.(owner := s.owner[p.lock := None], pc := s.pc[t := Released(p.name)])
  }

  // The invariant -------------------------------------------------------------------------

  /** The thread relies on the named mutex staying in the map. */
  predicate Uses(p: Pc) {
    p.Found? || p.Counted? || p.Waiting? || p.Acquired? || p.Holding? || p.Unlocking?
  }

  /** Between inc and dec. */
  predicate IsCounted(p: Pc, lock: Ref) {
    (p.Counted? || p.Waiting? || p.Acquired?) && p.lock == lock
  }

  predicate Owns(p: Pc, lock: Ref) {
    (p.Acquired? || p.Holding? || p.Unlocking? || p.Checked?) && p.lock == lock
  }

  function Between(s: State, lock: Ref): set<Thread> {
    set t | t in s.pc && IsCounted(s.pc[t], lock)
  }

  ghost predicate ThreadInv(s: State, t: Thread) {
    && t in s.pc
    && (InMain(s.pc[t]) <==> s.main == Some(t))
    && (Uses(s.pc[t]) ==> s.pc[t].name in s.locks && s.locks[s.pc[t].name] == s.pc[t].lock)
    && (s.pc[t].Checked? ==>
          s.pc[t].lock in s.owner && (s.pc[t].name in s.locks ==> s.locks[s.pc[t].name] == s.pc[t].lock))
    && !s.pc[t].Missing?
  }

  ghost predicate LockInv(s: State, lock: Ref) {
    && lock in s.owner && lock in s.waiters
    && s.waiters[lock] == |Between(s, lock)|
    && (s.owner[lock].Some? ==> s.owner[lock].value in s.pc)
    && (forall t {:trigger Owns(s.pc[t], lock)} :: t in s.pc ==> (Owns(s.pc[t], lock) <==> s.owner[lock] == Some(t)))
  }

  /** A name is in the map only while some thread uses its mutex, and no two names share one. */
  ghost predicate NameInv(s: State, name: string) {
    && name in s.locks && s.locks[name] in s.owner
    && exists t :: t in s.pc && Uses(s.pc[t]) && s.pc[t].name == name
  }

  ghost predicate Inv(s: State) {
    && s.owner.Keys == s.waiters.Keys
    && (forall t {:trigger ThreadInv(s, t)} :: t in s.pc ==> ThreadInv(s, t))
    && (forall lock {:trigger LockInv(s, lock)} :: lock in s.owner ==> LockInv(s, lock))
    && (forall name {:trigger NameInv(s, name)} :: name in s.locks ==> NameInv(s, name))
    && (forall a, b :: a in s.locks && b in s.locks && s.locks[a] == s.locks[b] ==> a == b)
    && (s.main.Some? ==> s.main.value in s.pc && InMain(s.pc[s.main.value]))
  }

  lemma InitInv(threads: set<Thread>)
    ensures Inv(Init(threads))
  {
  }

  // Keeping it ----------------------------------------------------------------------------

  /** Taking and leaving the main mutex. */
  lemma MainKeeps(s: State, t: Thread, op: Op)
    requires Inv(s) && Enabled(s, t, op) && (op.Lock? || op.LeaveMain? || op.Unlock?)
    ensures Inv(Apply(s, t, op))
  {
    var s' := Apply(s, t, op);
    assert ThreadInv(s, t);
    forall u | u in s'.pc ensures ThreadInv(s', u) {
      assert ThreadInv(s, u);
    }
    forall lock | lock in s'.owner ensures LockInv(s', lock) {
      assert LockInv(s, lock);
      assert Between(s', lock) == Between(s, lock);
      OwnersMove(s, s', t, lock);
    }
    NamesStay(s, s', t);
  }

  /** Locking and unlocking a named mutex. */
  lemma OwnerKeeps(s: State, t: Thread, op: Op)
    requires Inv(s) && Enabled(s, t, op) && (op.Acquire? || op.Release?)
    ensures Inv(Apply(s, t, op))
  {
    var s' := Apply(s, t, op);
    assert ThreadInv(s, t);
    forall u | u in s'.pc ensures ThreadInv(s', u) {
      assert ThreadInv(s, u);
    }
    forall lock | lock in s'.owner ensures LockInv(s', lock) {
      assert LockInv(s, lock);
      assert Owns(s.pc[t], lock) <==> s.owner[lock] == Some(t);
      assert Between(s', lock) == Between(s, lock);
      OwnersMove(s, s', t, lock);
    }
    NamesStay(s, s', t);
  }

  /** Only `t` gains or loses ownership, and its program counter says so. */
  lemma OwnersMove(s: State, s': State, t: Thread, lock: Ref)
    requires LockInv(s, lock) && t in s.pc && t in s'.pc && s'.pc == s.pc[t := s'.pc[t]] && lock in s'.owner
    requires
      || (s'.owner[lock] == s.owner[lock] && (Owns(s'.pc[t], lock) <==> Owns(s.pc[t], lock)))
      || (s.owner[lock] == None && s'.owner[lock] == Some(t) && Owns(s'.pc[t], lock))
      || (s.owner[lock] == Some(t) && s'.owner[lock] == None && !Owns(s'.pc[t], lock))
    ensures forall u {:trigger Owns(s'.pc[u], lock)} :: u in s'.pc ==>
              (Owns(s'.pc[u], lock) <==> s'.owner[lock] == Some(u))
  {
    assert Owns(s.pc[t], lock) <==> s.owner[lock] == Some(t);
    forall u | u in s'.pc ensures Owns(s'.pc[u], lock) <==> s'.owner[lock] == Some(u) {
      if u != t {
        assert Owns(s.pc[u], lock) <==> s.owner[lock] == Some(u);
      }
    }
  }

  /** A name keeps its user, unless that was `t`, which keeps using it. */
  lemma NamesStay(s: State, s': State, t: Thread)
    requires Inv(s) && t in s.pc && t in s'.pc && s'.pc == s.pc[t := s'.pc[t]] && s'.locks == s.locks
    requires s.owner.Keys <= s'.owner.Keys
    requires Uses(s.pc[t]) ==> Uses(s'.pc[t]) && s'.pc[t].name == s.pc[t].name
    ensures forall name {:trigger NameInv(s', name)} :: name in s'.locks ==> NameInv(s', name)
  {
    forall name | name in s'.locks ensures NameInv(s', name) {
      assert NameInv(s, name);
      var u :| u in s.pc && Uses(s.pc[u]) && s.pc[u].name == name;
      assert Uses(s'.pc[u]) && s'.pc[u].name == name;
    }
  }

  /** A counter changes with the set it counts. */
  lemma CountMoves(s: State, s': State, t: Thread, lock: Ref, changed: Ref)
    requires t in s.pc && t in s'.pc && s'.pc == s.pc[t := s'.pc[t]]
    requires forall k :: k != changed ==> (IsCounted(s.pc[t], k) <==> IsCounted(s'.pc[t], k))
    requires IsCounted(s.pc[t], changed) != IsCounted(s'.pc[t], changed)
    ensures lock != changed ==> |Between(s', lock)| == |Between(s, lock)|
    ensures lock == changed ==>
              |Between(s', lock)| ==
              if IsCounted(s'.pc[t], changed) then |Between(s, lock)| + 1 else |Between(s, lock)| - 1
  {
    if lock != changed {
      assert Between(s', lock) == Between(s, lock);
    } else if IsCounted(s'.pc[t], changed) {
      assert Between(s', lock) == Between(s, lock) + {t};
    } else {
      assert Between(s, lock) == Between(s', lock) + {t};
    }
  }

  lemma IncKeeps(s: State, t: Thread)
    requires Inv(s) && Enabled(s, t, Inc)
    ensures Inv(Apply(s, t, Inc))
  {
    var s' := Apply(s, t, Inc);
    var changed := s.pc[t].lock;
    assert ThreadInv(s, t);
    forall u | u in s'.pc ensures ThreadInv(s', u) {
      assert ThreadInv(s, u);
    }
    forall lock | lock in s'.owner ensures LockInv(s', lock) {
      assert LockInv(s, lock);
      CountMoves(s, s', t, lock, changed);
      OwnersMove(s, s', t, lock);
    }
    NamesStay(s, s', t);
  }

  lemma DecKeeps(s: State, t: Thread)
    requires Inv(s) && Enabled(s, t, Dec)
    ensures Inv(Apply(s, t, Dec))
  {
    var s' := Apply(s, t, Dec);
    var changed := s.pc[t].lock;
    assert ThreadInv(s, t);
    forall u | u in s'.pc ensures ThreadInv(s', u) {
      assert ThreadInv(s, u);
    }
    forall lock | lock in s'.owner ensures LockInv(s', lock) {
      assert LockInv(s, lock);
      CountMoves(s, s', t, lock, changed);
      OwnersMove(s, s', t, lock);
    }
    NamesStay(s, s', t);
  }

  lemma LookupKeeps(s: State, t: Thread, created: Ref)
    requires Inv(s) && Enabled(s, t, Lookup(created))
    ensures Inv(Apply(s, t, Lookup(created)))
  {
    var s' := Apply(s, t, Lookup(created));
    var name := s.pc[t].name;
    assert ThreadInv(s, t);
    assert name in s.locks ==> NameInv(s, name);
    forall u | u in s'.pc ensures ThreadInv(s', u) {
      assert ThreadInv(s, u);
    }
    forall lock | lock in s'.owner ensures LockInv(s', lock) {
      if lock in s.owner {
        assert LockInv(s, lock);
        assert Between(s', lock) == Between(s, lock);
        OwnersMove(s, s', t, lock);
      } else {
        NobodyAt(s, lock);
        assert Between(s', lock) == {};
      }
    }
    forall n | n in s'.locks ensures NameInv(s', n) {
      if n == name {
        assert Uses(s'.pc[t]);
      } else {
        assert NameInv(s, n);
        var u :| u in s.pc && Uses(s.pc[u]) && s.pc[u].name == n;
        assert Uses(s'.pc[u]);
      }
    }
    forall a, b | a in s'.locks && b in s'.locks && s'.locks[a] == s'.locks[b] ensures a == b {
      assert (a in s.locks ==> NameInv(s, a)) && (b in s.locks ==> NameInv(s, b));
    }
  }

  /** A mutex that does not exist yet is not used. */
  lemma NobodyAt(s: State, lock: Ref)
    requires Inv(s) && lock !in s.owner
    ensures forall u :: u in s.pc ==> !IsCounted(s.pc[u], lock) && !Owns(s.pc[u], lock)
  {
    forall u | u in s.pc ensures !IsCounted(s.pc[u], lock) && !Owns(s.pc[u], lock) {
      assert ThreadInv(s, u);
      if Uses(s.pc[u]) {
        assert NameInv(s, s.pc[u].name);
      }
    }
  }

  /** Without waiters the thread that unlocks is the only user of the name. */
  lemma OnlyUser(s: State, t: Thread, u: Thread)
    requires Inv(s) && t in s.pc && s.pc[t].Unlocking? && s.pc[t].lock in s.waiters && s.waiters[s.pc[t].lock] == 0
    requires u in s.pc && Uses(s.pc[u]) && s.pc[u].name == s.pc[t].name
    ensures u == t
  {
    var lock := s.pc[t].lock;
    assert ThreadInv(s, t) && ThreadInv(s, u) && LockInv(s, lock);
    assert Owns(s.pc[t], lock) && s.owner[lock] == Some(t);
    assert Owns(s.pc[u], lock) <==> s.owner[lock] == Some(u);
    assert u !in Between(s, lock);
  }

  lemma CheckKeeps(s: State, t: Thread)
    requires Inv(s) && Enabled(s, t, Check)
    ensures Inv(Apply(s, t, Check))
  {
    var s' := Apply(s, t, Check);
    var name, lock := s.pc[t].name, s.pc[t].lock;
    assert ThreadInv(s, t) && NameInv(s, name) && LockInv(s, lock);
    forall u | u in s'.pc ensures ThreadInv(s', u) {
      assert ThreadInv(s, u);
      if s.waiters[lock] == 0 && Uses(s.pc[u]) && s.pc[u].name == name {
        OnlyUser(s, t, u);
      }
    }
    forall k | k in s'.owner ensures LockInv(s', k) {
      assert LockInv(s, k);
      assert Between(s', k) == Between(s, k);
      OwnersMove(s, s', t, k);
    }
    forall n | n in s'.locks ensures NameInv(s', n) {
      assert NameInv(s, n);
      if n == name {
        assert Between(s, lock) != {};
        var u :| u in Between(s, lock);
        UserOf(s, u, name, lock);
        assert Uses(s'.pc[u]);
      } else {
        var u :| u in s.pc && Uses(s.pc[u]) && s.pc[u].name == n;
        assert Uses(s'.pc[u]);
      }
    }
  }

  lemma UserOf(s: State, u: Thread, name: string, lock: Ref)
    requires Inv(s) && name in s.locks && s.locks[name] == lock && u in Between(s, lock)
    ensures Uses(s.pc[u]) && s.pc[u].name == name
  {
    assert ThreadInv(s, u);
  }

  lemma StepKeeps(s: State, t: Thread, op: Op)
    requires Inv(s) && Enabled(s, t, op)
    ensures Inv(Apply(s, t, op))
  {
    match op
    case Lookup(created) => LookupKeeps(s, t, created);
    case Inc => IncKeeps(s, t);
    case Dec => DecKeeps(s, t);
    case Check => CheckKeeps(s, t);
    case Acquire => OwnerKeeps(s, t, op);
    case Release => OwnerKeeps(s, t, op);
    case _ => MainKeeps(s, t, op);
  }

  // Runs ----------------------------------------------------------------------------------

  ghost predicate Next(s: State, s': State) {
    exists t, op :: Enabled(s, t, op) && s' == Apply(s, t, op)
  }

  ghost predicate StepTaken(run: seq<State>, i: int) {
    0 <= i < |run| - 1 ==> Next(run[i], run[i + 1])
  }

  ghost predicate IsRun(threads: set<Thread>, run: seq<State>) {
    |run| >= 1 && run[0] == Init(threads) && forall i :: StepTaken(run, i)
  }

  lemma {:induction false} RunInv(threads: set<Thread>, run: seq<State>, i: nat)
    requires IsRun(threads, run) && i < |run|
    ensures Inv(run[i])
  {
    if i == 0 {
      InitInv(threads);
    } else {
      RunInv(threads, run, i - 1);
      assert StepTaken(run, i - 1);
      var t, op :| Enabled(run[i - 1], t, op) && run[i] == Apply(run[i - 1], t, op);
      StepKeeps(run[i - 1], t, op);
    }
  }

  /** From the moment the named mutex is locked until it is unlocked. */
  predicate Inside(p: Pc, name: string) {
    (p.Acquired? || p.Holding? || p.Unlocking? || p.Checked?) && p.name == name
  }

  /** In every interleaving at most one thread is inside a name. */
  lemma MutualExclusion(threads: set<Thread>, run: seq<State>, i: nat, name: string, t: Thread, u: Thread)
    requires IsRun(threads, run) && i < |run|
    requires t in run[i].pc && Inside(run[i].pc[t], name) && u in run[i].pc && Inside(run[i].pc[u], name)
    ensures t == u
  {
    var s := run[i];
    RunInv(threads, run, i);
    assert ThreadInv(s, t) && ThreadInv(s, u);
    var a, b := s.pc[t].lock, s.pc[u].lock;
    if a == b {
      assert a in s.owner && LockInv(s, a) by {
        if Uses(s.pc[t]) {
          assert NameInv(s, name);
        }
      }
      assert Owns(s.pc[t], a) && Owns(s.pc[u], a);
    }
  }

  /**
   In every interleaving the waiter counter of a mutex is the number of threads between inc
   and dec; all threads that use a name share the mutex the map has for it, so none is
   deleted while a thread waits for it or holds it; and Unlock finds the mutex it looks for.
   */
  lemma SharedAndCounted(threads: set<Thread>, run: seq<State>, i: nat)
    requires IsRun(threads, run) && i < |run|
    ensures forall lock :: lock in run[i].waiters ==> run[i].waiters[lock] == |Between(run[i], lock)|
    ensures forall t :: t in run[i].pc && Uses(run[i].pc[t]) ==>
              run[i].pc[t].name in run[i].locks && run[i].locks[run[i].pc[t].name] == run[i].pc[t].lock
    ensures forall t :: t in run[i].pc ==> !run[i].pc[t].Missing?
  {
    var s := run[i];
    RunInv(threads, run, i);
    forall lock | lock in s.waiters ensures s.waiters[lock] == |Between(s, lock)| {
      assert LockInv(s, lock);
    }
    forall t | t in s.pc
      ensures !s.pc[t].Missing?
      ensures Uses(s.pc[t]) ==> s.pc[t].name in s.locks && s.locks[s.pc[t].name] == s.pc[t].lock
    {
      assert ThreadInv(s, t);
    }
  }

  lemma SomeUser(s: State, name: string) returns (u: Thread)
    requires Inv(s) && name in s.locks
    ensures u in s.pc && Uses(s.pc[u]) && s.pc[u].name == name
  {
    assert NameInv(s, name);
    u :| u in s.pc && Uses(s.pc[u]) && s.pc[u].name == name;
  }

  /** When no thread is inside Lock or Unlock or holds a name, the map is empty. */
  lemma EmptyWhenQuiet(threads: set<Thread>, run: seq<State>, i: nat)
    requires IsRun(threads, run) && i < |run|
    requires forall t :: t in run[i].pc ==> run[i].pc[t] == Idle
    ensures run[i].locks == map[]
  {
    var s := run[i];
    RunInv(threads, run, i);
    if name :| name in s.locks {
      var u := SomeUser(s, name);
      assert false;
    }
  }

  /** Unless all threads are idle, some thread that is inside can move: there is no deadlock. */
  lemma SomeThreadMoves(threads: set<Thread>, run: seq<State>, i: nat, t: Thread) returns (u: Thread, op: Op)
    requires IsRun(threads, run) && i < |run| && t in run[i].pc && run[i].pc[t] != Idle
    ensures Enabled(run[i], u, op) && run[i].pc[u] != Idle
  {
    var s := run[i];
    RunInv(threads, run, i);
    if s.main.Some? {
      u := s.main.value;
    } else {
      u := t;
      assert ThreadInv(s, t);
      if s.pc[t].Waiting? {
        assert NameInv(s, s.pc[t].name) && LockInv(s, s.pc[t].lock);
        if s.owner[s.pc[t].lock].Some? {
          u := OwnerOf(s, s.pc[t].lock);
        }
      }
    }
    op := OwnMove(s, u);
  }

  /** The owner of a mutex is a thread inside Lock, Unlock or between them. */
  lemma OwnerOf(s: State, lock: Ref) returns (u: Thread)
    requires Inv(s) && lock in s.owner && s.owner[lock].Some?
    ensures u in s.pc && Owns(s.pc[u], lock)
  {
    u := s.owner[lock].value;
    assert LockInv(s, lock);
  }

  /** What the thread does next; only a held mutex or a held main mutex can stop it. */
  lemma OwnMove(s: State, u: Thread) returns (op: Op)
    requires Inv(s) && u in s.pc && s.pc[u] != Idle
    requires s.pc[u].Waiting? && s.pc[u].lock in s.owner ==> s.owner[s.pc[u].lock] == None
    requires s.pc[u].Holding? ==> s.main == None
    ensures Enabled(s, u, op)
  {
    assert ThreadInv(s, u);
    if Uses(s.pc[u]) {
      assert NameInv(s, s.pc[u].name);
    }
    match s.pc[u]
    case Locking(_) =>
      var created := Bound(s.owner.Keys);
      op := Lookup(created);
    case Found(_, _) => op := Inc;
    case Waiting(_, _) => op := Acquire;
    case Acquired(_, _) => op := Dec;
    case Holding(_, _) => op := Unlock;
    case Unlocking(_, _) => op := Check;
    case Checked(_, _) => op := Release;
    case _ => op := LeaveMain;
  }

  /** Memory never runs out. */
  lemma {:induction false} Bound(refs: set<Ref>) returns (bound: Ref)
    ensures forall r :: r in refs ==> r < bound
    decreases |refs|
  {
    if refs == {} {
      bound := 0;
    } else {
      var r :| r in refs;
      bound := Bound(refs - {r});
      assert forall x :: x in refs ==> x == r || x in refs - {r};
      bound := if r < bound then bound else r + 1;
    }
  }
}
