/**
 The loopback OCI registry (internal/ociproxy/registry.go) as a state machine: upload
 sessions as in "Pushing a blob in chunks" of the OCI Distribution Specification v1.1,
 single-request uploads, manifests, and Close. Every step is one operation of one request
 under the session's mutex or the mutex of the session map; requests interleave freely and
 clients may send them in any order.
 */
module OciProxies {
  import opened Results
  import Strings

  type SessionId = nat
  type RequestId = nat

  datatype Request =
    | Patch(id: SessionId, body: Bytes)
    | Put(id: SessionId, digest: string, body: Bytes)
    | Monolithic(digest: string, body: Bytes)
    | Manifest(name: string, body: Bytes)
  {
    predicate Chunked() {
      Patch? || Put?
    }
  }

  /** `sha` gives the canonical digest string, `wellFormed` is the digest pattern. */
  datatype Config = Config(requests: map<RequestId, Request>, sha: Bytes -> string, wellFormed: string -> bool)

  /** The first `length` bytes of a request's body. */
  datatype Part = Part(r: RequestId, length: nat)

  /** A staged writer: a Cancel after Commit, and a Commit after Cancel, change nothing. */
  datatype Staged = Streaming | Cancelled | Committed

  /**
   A pending upload. `detached` says that its writer field has been cleared, `digested` is
   what the running digest has seen and `persisted` what the staged writer holds. `parts`,
   `owner` and `commits` record which bytes came from where, which request set `finished`,
   and how often Commit was called.
   */
  datatype Upload = Upload(
    holder: Option<RequestId>,
    detached: bool,
    finished: bool,
    digested: Bytes,
    written: nat,
    persisted: Bytes,
    staged: Staged,
    parts: seq<Part>,
    owner: Option<RequestId>,
    commits: nat)

  datatype Pc =
    | Arrived
    | Found                    // has the session
    | Copying(n: nat)          // holds the session's mutex, has copied n bytes
    | Broken                   // the copy failed, the mutex is released
    | Removed                  // has taken the session out of the map, will cancel it
    | Digested(actual: string) // PUT: everything copied, the mutex is released
    | Dropped(actual: string)  // PUT: and the session is out of the map
    | Stored(digest: string)   // manifest: in the store
    | Answered(ok: bool)

  /** A chunked upload as it was committed. */
  datatype Commit = Commit(id: SessionId, put: RequestId, digest: string, content: Bytes, parts: seq<Part>)

  datatype Registry = Registry(
    pc: map<RequestId, Pc>,
    sessions: map<SessionId, Upload>,
    uploads: set<SessionId>,
    closing: bool,
    cas: map<string, Bytes>,
    manifestsByName: map<string, string>,
    log: seq<Commit>)

  const FRESH := Upload(None, false, false, [], 0, [], Streaming, [], None, 0)

  function Init(c: Config): Registry {
    Registry(map r | r in c.requests :: Arrived, map[], {}, false, map[], map[], [])
  }

  datatype Step =
    | Open(id: SessionId)
    | Lookup(r: RequestId)
    | LockSession(r: RequestId)
    | Write(r: RequestId, n: nat, fails: bool)
    | EndCopy(r: RequestId)
    | Remove(r: RequestId)
    | CancelSession(r: RequestId)
    | Drop(r: RequestId)
    | Resolve(r: RequestId, ok: bool, lands: bool)
    | Whole(r: RequestId, complete: bool, ok: bool, lands: bool)
    | StoreManifest(r: RequestId, ok: bool, lands: bool)
    | RecordManifest(r: RequestId)
    | BeginClose
    | CloseOne(id: SessionId)
    | EndClose

  predicate At(c: Config, s: Registry, r: RequestId, chunked: bool) {
    r in c.requests && r in s.pc && (chunked <==> c.requests[r].Chunked())
  }

  /** The session of a chunked request. */
  predicate InSession(c: Config, s: Registry, r: RequestId) {
    At(c, s, r, true) && c.requests[r].id in s.sessions
  }

  predicate Enabled(c: Config, s: Registry, step: Step) {
    match step
    case Open(id) => id !in s.sessions && !s.closing
    case Lookup(r) => At(c, s, r, true) && s.pc[r] == Arrived && !s.closing
    case LockSession(r) => InSession(c, s, r) && s.pc[r] == Found && s.sessions[c.requests[r].id].holder == None
    case Write(r, n, _) => InSession(c, s, r) && s.pc[r].Copying? && s.pc[r].n + n <= |c.requests[r].body|
    case EndCopy(r) => InSession(c, s, r) && s.pc[r] == Copying(|c.requests[r].body|)
    case Remove(r) => At(c, s, r, true) && s.pc[r] == Broken && !s.closing
    case CancelSession(r) => InSession(c, s, r) && s.pc[r] == Removed && s.sessions[c.requests[r].id].holder == None
    case Drop(r) => At(c, s, r, true) && s.pc[r].Digested? && !s.closing
    case Resolve(r, ok, lands) => InSession(c, s, r) && s.pc[r].Dropped? && c.requests[r].Put? && (ok ==> lands)
    case Whole(r, complete, ok, lands) =>
      At(c, s, r, false) && c.requests[r].Monolithic? && s.pc[r] == Arrived && (ok ==> lands)
    case StoreManifest(r, ok, lands) =>
      At(c, s, r, false) && c.requests[r].Manifest? && s.pc[r] == Arrived && (ok ==> lands)
    case RecordManifest(r) => At(c, s, r, false) && c.requests[r].Manifest? && s.pc[r].Stored?
    case BeginClose => !s.closing
    case CloseOne(id) => s.closing && id in s.uploads && id in s.sessions && s.sessions[id].holder == None
    case EndClose => s.closing && s.uploads == {}
  }

  /** A request takes the session's mutex; a PUT also finishes the session. */
  function Locked(u: Upload, r: RequestId, put: bool): Upload {
    u.(holder := Some(r), parts := u.parts + [Part(r, 0)],
       finished := u.finished || put, owner := if put then Some(r) else u.owner)
  }

  /**
   pendingUpload.Write: the digest advances by the bytes that were persisted, no others. A
   copy that breaks off releases the mutex.
   */
  function Written(u: Upload, chunk: Bytes, breaks: bool): Upload {
    if u.detached then u.(holder := None)
    else
      u.(persisted := u.persisted + chunk, digested := u.digested + chunk, written := u.written + |chunk|,
         parts := LastGrown(u.parts, |chunk|), holder := if breaks then None else u.holder)
  }

  function LastGrown(parts: seq<Part>, n: nat): seq<Part> {
    if parts == [] then []
    else
      var last := parts[|parts| - 1];
      parts[..|parts| - 1] + [Part(last.r, last.length + n)]
  }

  /** pendingUpload.cancel. */
  function CancelledUpload(u: Upload): Upload {
    if u.detached then u
    else u.(detached := true, finished := true, staged := if u.staged == Streaming then Cancelled else u.staged)
  }

  /** What Commit, or Cancel if the digest does not match, does to the staged writer. */
  function Resolved(u: Upload, matches: bool): Upload {
    if matches then u.(commits := u.commits + 1, staged := if u.staged == Streaming then Committed else u.staged)
    else u.(staged := if u.staged == Streaming then Cancelled else u.staged)
  }

  function Apply(c: Config, s: Registry, step: Step): Registry
    requires Enabled(c, s, step)
  {
    match step
    case Open(id) => s.(sessions := s.sessions[id := FRESH], uploads := s.uploads + {id})
    case Lookup(r) =>
      var q := c.requests[r];
      s.(pc := s.pc[r := if q.id in s.uploads && (q.Put? ==> c.wellFormed(q.digest)) then Found else Answered(false)])
    case LockSession(r) =>
      var q := c.requests[r];
      var u := s.sessions[q.id];
      if u.finished then s.(pc := s.pc[r := Answered(false)])
      else
        s.(pc := s.pc[r := Copying(0)], sessions := s.sessions[q.id := Locked(u, r, q.Put?)])
    case Write(r, n, fails) =>
      var q, from := c.requests[r], s.pc[r].n;
      var breaks := fails || s.sessions[q.id].detached;
      s.(pc := s.pc[r := if breaks then Broken else Copying(from + n)],
         sessions := s.sessions[q.id := Written(s.sessions[q.id], q.body[from..from + n], breaks)])
    case EndCopy(r) =>
      var q := c.requests[r];
      var u := s.sessions[q.id];
      s.(pc := s.pc[r := if q.Put? then Digested(c.sha(u.digested)) else Answered(true)],
         sessions := s.sessions[q.id := u.(holder := None)])
    case Remove(r) =>
      var q := c.requests[r];
      s.(pc := s.pc[r := if q.id in s.uploads then Removed else Answered(false)], uploads := s.uploads - {q.id})
    case CancelSession(r) =>
      var q := c.requests[r];
      s.(pc := s.pc[r := Answered(false)], sessions := s.sessions[q.id := CancelledUpload(s.sessions[q.id])])
    case Drop(r) => s.(pc := s.pc[r := Dropped(s.pc[r].actual)], uploads := s.uploads - {c.requests[r].id})
    case Resolve(r, ok, lands) =>
      var q, actual := c.requests[r], s.pc[r].actual;
      var u := s.sessions[q.id];
      var commits := actual == q.digest && u.staged == Streaming;
      s.(pc := s.pc[r := Answered(commits && ok)],
         sessions := s.sessions[q.id := Resolved(u, actual == q.digest)],
         cas := if commits && lands then s.cas[q.digest := u.persisted] else s.cas,
         log := if commits && lands then s.log + [Commit(q.id, r, q.digest, u.persisted, u.parts)] else s.log)
    case Whole(r, complete, ok, lands) =>
      var q := c.requests[r];
      if !c.wellFormed(q.digest) || !complete || c.sha(q.body) != q.digest then s.(pc := s.pc[r := Answered(false)])
      else s.(pc := s.pc[r := Answered(ok)], cas := if lands then s.cas[q.digest := q.body] else s.cas)
    case StoreManifest(r, ok, lands) =>
      var q := c.requests[r];
      var digest := c.sha(q.body);
      s.(pc := s.pc[r := if ok then Stored(digest) else Answered(false)],
         cas := if lands && digest !in s.cas then s.cas[digest := q.body] else s.cas)
    case RecordManifest(r) =>
      s.(pc := s.pc[r := Answered(true)], manifestsByName := s.manifestsByName[c.requests[r].name := s.pc[r].digest])
    case BeginClose => s.(closing := true)
    case CloseOne(id) =>
      s.(sessions := s.sessions[id := CancelledUpload(s.sessions[id])], uploads := s.uploads - {id})
    case EndClose => s.(closing := false)
  }

  ghost predicate Taken(c: Config, s: Registry, step: Step, s': Registry) {
    Enabled(c, s, step) && s' == Apply(c, s, step)
  }

  // The invariant -------------------------------------------------------------------------

  predicate PartOk(c: Config, id: SessionId, p: Part) {
    p.r in c.requests && c.requests[p.r].Chunked() && c.requests[p.r].id == id && p.length <= |c.requests[p.r].body|
  }

  ghost predicate PartsOk(c: Config, id: SessionId, parts: seq<Part>) {
    forall k :: 0 <= k < |parts| ==> PartOk(c, id, parts[k])
  }

  /** The parts of the bodies one after the other. */
  function Concatenated(c: Config, id: SessionId, parts: seq<Part>): Bytes
    requires forall k :: 0 <= k < |parts| ==> PartOk(c, id, parts[k])
  {
    if parts == [] then []
    else
      var last := |parts| - 1;
      assert PartOk(c, id, parts[last]);
      Concatenated(c, id, parts[..last]) + c.requests[parts[last].r].body[..parts[last].length]
  }

  ghost predicate UploadOk(c: Config, id: SessionId, u: Upload) {
    && PartsOk(c, id, u.parts)
    && u.persisted == Concatenated(c, id, u.parts)
    && u.digested == u.persisted && u.written == |u.persisted|
    && (u.detached || u.staged != Streaming || u.owner.Some? ==> u.finished)
    && (u.holder.Some? ==> !u.detached)
    && u.commits <= 1
    && (u.commits == 1 ==> u.owner.Some?)
  }

  ghost predicate SessionInv(c: Config, s: Registry, id: SessionId) {
    id in s.sessions &&
    var u := s.sessions[id];
    && UploadOk(c, id, u)
    && (u.holder.Some? ==>
          At(c, s, u.holder.value, true) && c.requests[u.holder.value].id == id && s.pc[u.holder.value].Copying?)
    && (u.commits == 1 ==>
          At(c, s, u.owner.value, true) && c.requests[u.owner.value].id == id && s.pc[u.owner.value].Answered?)
  }

  ghost predicate LastPart(u: Upload, p: Part) {
    u.parts != [] && u.parts[|u.parts| - 1] == p
  }

  ghost predicate RequestInv(c: Config, s: Registry, r: RequestId) {
    && r in s.pc && r in c.requests
    && (match s.pc[r]
        case Arrived => true
        case Found => InSession(c, s, r)
        case Copying(n) =>
          && InSession(c, s, r) && n <= |c.requests[r].body| &&
          var u := s.sessions[c.requests[r].id];
          && u.holder == Some(r) && LastPart(u, Part(r, n)) && !u.detached
          && (if c.requests[r].Put? then u.owner == Some(r) && u.commits == 0 else !u.finished)
        case Broken => InSession(c, s, r)
        case Removed => InSession(c, s, r)
        case Digested(actual) => Owned(c, s, r, actual)
        case Dropped(actual) => Owned(c, s, r, actual)
        case Stored(digest) => digest in s.cas && (c.requests[r].Manifest? ==> digest == c.sha(c.requests[r].body))
        case Answered(ok) => ok ==> Kept(c, s, r))
  }

  /** What the client may rely on once the request was answered with success. */
  ghost predicate Kept(c: Config, s: Registry, r: RequestId)
    requires r in c.requests
  {
    match c.requests[r]
    case Patch(id, body) => id in s.sessions && Part(r, |body|) in s.sessions[id].parts
    case Put(_, digest, _) => digest in s.cas
    case Monolithic(digest, _) => digest in s.cas
    case Manifest(name, body) => c.sha(body) in s.cas && name in s.manifestsByName
  }

  /** A PUT that has copied its body: nobody can add bytes to its session any more. */
  ghost predicate Owned(c: Config, s: Registry, r: RequestId, actual: string) {
    && InSession(c, s, r) && c.requests[r].Put? &&
    var u := s.sessions[c.requests[r].id];
    && u.owner == Some(r) && u.finished && u.holder == None && u.commits == 0
    && actual == c.sha(u.digested) && LastPart(u, Part(r, |c.requests[r].body|))
  }

  ghost predicate CommitOk(c: Config, s: Registry, e: Commit) {
    && e.put in c.requests && c.requests[e.put].Put?
    && c.requests[e.put].id == e.id && c.requests[e.put].digest == e.digest
    && PartsOk(c, e.id, e.parts) && e.content == Concatenated(c, e.id, e.parts) && c.sha(e.content) == e.digest
    && e.parts != [] && e.parts[|e.parts| - 1] == Part(e.put, |c.requests[e.put].body|)
    && e.id in s.sessions && s.sessions[e.id].commits == 1 && s.sessions[e.id].parts == e.parts
  }

  ghost predicate StoreInv(c: Config, s: Registry) {
    && (forall d :: d in s.cas ==> c.sha(s.cas[d]) == d)
    && (forall n :: n in s.manifestsByName ==> s.manifestsByName[n] in s.cas)
  }

  ghost predicate LogInv(c: Config, s: Registry) {
    && (forall k {:trigger CommitOk(c, s, s.log[k])} :: 0 <= k < |s.log| ==> CommitOk(c, s, s.log[k]))
    && (forall i, k :: 0 <= i < k < |s.log| ==> s.log[i].id != s.log[k].id)
  }

  ghost predicate SessionsInv(c: Config, s: Registry) {
    forall id {:trigger SessionInv(c, s, id)} :: id in s.sessions ==> SessionInv(c, s, id)
  }

  ghost predicate RequestsInv(c: Config, s: Registry) {
    s.pc.Keys == c.requests.Keys && forall r {:trigger RequestInv(c, s, r)} :: r in s.pc ==> RequestInv(c, s, r)
  }

  ghost predicate Inv(c: Config, s: Registry) {
    StoreInv(c, s) && LogInv(c, s) && SessionsInv(c, s) && RequestsInv(c, s) && s.uploads <= s.sessions.Keys
  }

  // Keeping it ----------------------------------------------------------------------------

  ghost predicate PartsKept(parts: seq<Part>, parts': seq<Part>, q: RequestId) {
    forall p :: p in parts && p.r == q ==> p in parts'
  }

  lemma LastGrownKeeps(parts: seq<Part>, n: nat, q: RequestId)
    requires parts != [] ==> parts[|parts| - 1].r != q
    ensures PartsKept(parts, LastGrown(parts, n), q)
  {
    if parts != [] {
      assert parts == parts[..|parts| - 1] + [parts[|parts| - 1]];
    }
  }

  /** A change to a session that another request `q` cannot notice. */
  ghost predicate Fits(u: Upload, u': Upload, q: RequestId) {
    || u' == u
    || (PartsKept(u.parts, u'.parts, q) && u.holder != Some(q) && (u.owner != Some(q) || u.holder.Some?))
    || (u.holder == None && u'.holder == None && u'.owner == u.owner && u'.digested == u.digested && u'.parts == u.parts
        && u'.commits == u.commits && (u.finished ==> u'.finished))
  }

  lemma RequestStays(c: Config, s: Registry, s': Registry, q: RequestId)
    requires RequestInv(c, s, q) && q in s'.pc && s'.pc[q] == s.pc[q]
    requires s.sessions.Keys <= s'.sessions.Keys && s.cas.Keys <= s'.cas.Keys
    requires s.manifestsByName.Keys <= s'.manifestsByName.Keys
    requires InSession(c, s, q) ==> Fits(s.sessions[c.requests[q].id], s'.sessions[c.requests[q].id], q)
    ensures RequestInv(c, s', q)
  {
  }

  lemma SessionStays(c: Config, s: Registry, s': Registry, r: RequestId, id: SessionId)
    requires SessionInv(c, s, id) && id in s'.sessions && s'.sessions[id] == s.sessions[id]
    requires s'.pc.Keys == s.pc.Keys && (forall q :: q in s.pc && q != r ==> s'.pc[q] == s.pc[q])
    requires r in s.pc && s'.pc[r] != s.pc[r] ==> r in c.requests && c.requests[r].Chunked() && c.requests[r].id != id
    ensures SessionInv(c, s', id)
  {
  }

  lemma LogStays(c: Config, s: Registry, s': Registry)
    requires LogInv(c, s) && s'.log == s.log
    requires forall id :: id in s.sessions ==>
               && id in s'.sessions
               && (s.sessions[id].commits == 1 ==>
                     s'.sessions[id].commits == 1 && s'.sessions[id].parts == s.sessions[id].parts)
    ensures LogInv(c, s')
  {
    forall k | 0 <= k < |s'.log| ensures CommitOk(c, s', s'.log[k]) {
      assert CommitOk(c, s, s.log[k]);
    }
  }

  /** A step of request `r` on its session: `u'` replaces the session, nothing else but `r` moves. */
  ghost predicate Moves(c: Config, s: Registry, s': Registry, r: RequestId, u': Upload) {
    && InSession(c, s, r)
    && r in s'.pc && s'.pc == s.pc[r := s'.pc[r]]
    && s'.sessions == s.sessions[c.requests[r].id := u']
    && s.cas.Keys <= s'.cas.Keys && s.manifestsByName == s'.manifestsByName
  }

  lemma RequestMoves(c: Config, s: Registry, s': Registry, r: RequestId, u': Upload)
    requires SessionsInv(c, s) && RequestsInv(c, s) && Moves(c, s, s', r, u')
    requires forall q :: q != r ==> Fits(s.sessions[c.requests[r].id], u', q)
    requires SessionInv(c, s', c.requests[r].id) && RequestInv(c, s', r)
    ensures SessionsInv(c, s') && RequestsInv(c, s')
  {
    var id := c.requests[r].id;
    forall q | q in s'.pc ensures RequestInv(c, s', q) {
      if q != r {
        assert RequestInv(c, s, q);
        RequestStays(c, s, s', q);
      }
    }
    forall k | k in s'.sessions ensures SessionInv(c, s', k) {
      if k != id {
        assert SessionInv(c, s, k);
        SessionStays(c, s, s', r, k);
      }
    }
  }

  /** Steps of a request that leave its session as it is. */
  lemma PcMoves(c: Config, s: Registry, s': Registry, r: RequestId)
    requires Inv(c, s) && r in s.pc && r in s'.pc && r in c.requests
    requires s' == s.(pc := s.pc[r := s'.pc[r]], uploads := s'.uploads, cas := s'.cas,
                      manifestsByName := s'.manifestsByName)
    requires s'.uploads <= s.uploads && s.cas.Keys <= s'.cas.Keys && StoreInv(c, s')
    requires s.manifestsByName.Keys <= s'.manifestsByName.Keys
    requires !s.pc[r].Copying? && !s'.pc[r].Copying? && !s.pc[r].Answered? && RequestInv(c, s', r)
    ensures Inv(c, s')
  {
    LogStays(c, s, s');
    forall q | q in s'.pc ensures RequestInv(c, s', q) {
      if q != r {
        assert RequestInv(c, s, q);
        RequestStays(c, s, s', q);
      }
    }
    forall id | id in s'.sessions ensures SessionInv(c, s', id) {
      assert SessionInv(c, s, id);
      assert s.sessions[id].holder == Some(r) ==> At(c, s, r, true);
      assert s.sessions[id].owner == Some(r) && s.sessions[id].commits == 1 ==> At(c, s, r, true);
    }
  }

  lemma OpenKeeps(c: Config, s: Registry, id: SessionId, s': Registry)
    requires Inv(c, s) && Taken(c, s, Open(id), s')
    ensures Inv(c, s')
  {
    LogStays(c, s, s');
    forall q | q in s'.pc ensures RequestInv(c, s', q) {
      assert RequestInv(c, s, q);
      RequestStays(c, s, s', q);
    }
    forall k | k in s'.sessions ensures SessionInv(c, s', k) {
      assert k != id ==> SessionInv(c, s, k);
    }
  }

  lemma LookupKeeps(c: Config, s: Registry, r: RequestId, s': Registry)
    requires Inv(c, s) && Taken(c, s, Lookup(r), s')
    ensures Inv(c, s')
  {
    PcMoves(c, s, s', r);
  }

  lemma RemoveKeeps(c: Config, s: Registry, r: RequestId, s': Registry)
    requires Inv(c, s) && Taken(c, s, Remove(r), s')
    ensures Inv(c, s')
  {
    assert RequestInv(c, s, r);
    PcMoves(c, s, s', r);
  }

  lemma DropKeeps(c: Config, s: Registry, r: RequestId, s': Registry)
    requires Inv(c, s) && Taken(c, s, Drop(r), s')
    ensures Inv(c, s')
  {
    assert RequestInv(c, s, r);
    PcMoves(c, s, s', r);
  }

  lemma WholeKeeps(c: Config, s: Registry, r: RequestId, complete: bool, ok: bool, lands: bool, s': Registry)
    requires Inv(c, s) && Taken(c, s, Whole(r, complete, ok, lands), s')
    ensures Inv(c, s')
  {
    PcMoves(c, s, s', r);
  }

  lemma {:induction false} ConcatenatedPrefix(c: Config, id: SessionId, parts: seq<Part>, last: Part)
    requires PartsOk(c, id, parts) && PartOk(c, id, last)
    ensures PartsOk(c, id, parts + [last])
    ensures Concatenated(c, id, parts + [last]) == Concatenated(c, id, parts) + c.requests[last.r].body[..last.length]
  {
    assert (parts + [last])[..|parts|] == parts;
  }

  lemma LockedOk(c: Config, id: SessionId, u: Upload, r: RequestId)
    requires UploadOk(c, id, u) && u.holder == None && !u.finished && PartOk(c, id, Part(r, 0))
    ensures UploadOk(c, id, Locked(u, r, c.requests[r].Put?))
    ensures forall q: RequestId :: q != r ==> Fits(u, Locked(u, r, c.requests[r].Put?), q)
  {
    ConcatenatedPrefix(c, id, u.parts, Part(r, 0));
  }

  lemma LockSessionKeeps(c: Config, s: Registry, r: RequestId, s': Registry)
    requires Inv(c, s) && Taken(c, s, LockSession(r), s')
    ensures Inv(c, s')
  {
    var id := c.requests[r].id;
    assert SessionInv(c, s, id) && RequestInv(c, s, r);
    if s.sessions[id].finished {
      PcMoves(c, s, s', r);
    } else {
      LockedKeeps(c, s, r, s');
    }
  }

  lemma LockedKeeps(c: Config, s: Registry, r: RequestId, s': Registry)
    requires Inv(c, s) && Taken(c, s, LockSession(r), s') && !s.sessions[c.requests[r].id].finished
    ensures Inv(c, s')
  {
    var id := c.requests[r].id;
    assert SessionInv(c, s, id) && RequestInv(c, s, r);
    LockedOk(c, id, s.sessions[id], r);
    RequestMoves(c, s, s', r, s'.sessions[id]);
    LogStays(c, s, s');
  }

  lemma LastPartGrows(c: Config, id: SessionId, parts: seq<Part>, r: RequestId, from: nat, n: nat)
    requires PartsOk(c, id, parts) && parts != [] && parts[|parts| - 1] == Part(r, from)
    requires r in c.requests && from + n <= |c.requests[r].body|
    ensures PartsOk(c, id, LastGrown(parts, n))
    ensures Concatenated(c, id, LastGrown(parts, n)) == Concatenated(c, id, parts) + c.requests[r].body[from..from + n]
  {
    var body, front := c.requests[r].body, parts[..|parts| - 1];
    assert PartOk(c, id, parts[|parts| - 1]);
    ConcatenatedPrefix(c, id, front, Part(r, from + n));
    SliceJoin(body, from, n);
    Strings.ConcatAssociative(Concatenated(c, id, front), body[..from], body[from..from + n]);
  }

  lemma SliceJoin(body: Bytes, from: nat, n: nat)
    requires from + n <= |body|
    ensures body[..from] + body[from..from + n] == body[..from + n]
  {
  }

  /** A chunk extends the last part and everything that counts persisted bytes alike. */
  lemma WrittenOk(c: Config, id: SessionId, u: Upload, u': Upload, r: RequestId, from: nat, n: nat, breaks: bool)
    requires UploadOk(c, id, u) && !u.detached && LastPart(u, Part(r, from)) && from + n <= |c.requests[r].body|
    requires u.holder == Some(r) && u' == Written(u, c.requests[r].body[from..from + n], breaks)
    ensures UploadOk(c, id, u') && LastPart(u', Part(r, from + n))
    ensures forall q: RequestId :: q != r ==> Fits(u, u', q)
  {
    LastPartGrows(c, id, u.parts, r, from, n);
    forall q | q != r ensures PartsKept(u.parts, LastGrown(u.parts, n), q) {
      LastGrownKeeps(u.parts, n, q);
    }
  }

  lemma WriteKeeps(c: Config, s: Registry, r: RequestId, n: nat, fails: bool, s': Registry)
    requires Inv(c, s) && Taken(c, s, Write(r, n, fails), s')
    ensures Inv(c, s')
  {
    assert SessionInv(c, s, c.requests[r].id) && RequestInv(c, s, r);
    WriteMoves(c, s, r, n, fails, s');
    LogStays(c, s, s');
  }

  lemma WriteMoves(c: Config, s: Registry, r: RequestId, n: nat, fails: bool, s': Registry)
    requires SessionsInv(c, s) && RequestsInv(c, s) && Taken(c, s, Write(r, n, fails), s')
    ensures SessionsInv(c, s') && RequestsInv(c, s')
  {
    var id := c.requests[r].id;
    assert SessionInv(c, s, id) && RequestInv(c, s, r);
    WrittenOk(c, id, s.sessions[id], s'.sessions[id], r, s.pc[r].n, n, fails);
    RequestMoves(c, s, s', r, s'.sessions[id]);
  }

  lemma EndCopyKeeps(c: Config, s: Registry, r: RequestId, s': Registry)
    requires Inv(c, s) && Taken(c, s, EndCopy(r), s')
    ensures Inv(c, s')
  {
    var id := c.requests[r].id;
    assert SessionInv(c, s, id) && RequestInv(c, s, r);
    RequestMoves(c, s, s', r, s'.sessions[id]);
    LogStays(c, s, s');
  }

  lemma CancelSessionKeeps(c: Config, s: Registry, r: RequestId, s': Registry)
    requires Inv(c, s) && Taken(c, s, CancelSession(r), s')
    ensures Inv(c, s')
  {
    var id := c.requests[r].id;
    assert SessionInv(c, s, id) && RequestInv(c, s, r);
    RequestMoves(c, s, s', r, s'.sessions[id]);
    LogStays(c, s, s');
  }

  /** Commit stores what the staged writer holds under the digest of exactly those bytes. */
  lemma ResolveKeeps(c: Config, s: Registry, r: RequestId, ok: bool, lands: bool, s': Registry)
    requires Inv(c, s) && Taken(c, s, Resolve(r, ok, lands), s')
    ensures Inv(c, s')
  {
    assert SessionInv(c, s, c.requests[r].id) && RequestInv(c, s, r);
    ResolveMoves(c, s, r, ok, lands, s');
    ResolveLogs(c, s, r, ok, lands, s');
  }

  lemma ResolveMoves(c: Config, s: Registry, r: RequestId, ok: bool, lands: bool, s': Registry)
    requires SessionsInv(c, s) && RequestsInv(c, s) && Taken(c, s, Resolve(r, ok, lands), s')
    ensures SessionsInv(c, s') && RequestsInv(c, s')
  {
    var id := c.requests[r].id;
    assert SessionInv(c, s, id) && RequestInv(c, s, r);
    ResolvedOk(c, id, s.sessions[id], s.pc[r].actual == c.requests[r].digest);
    RequestMoves(c, s, s', r, s'.sessions[id]);
  }

  lemma ResolvedOk(c: Config, id: SessionId, u: Upload, matches: bool)
    requires UploadOk(c, id, u) && u.commits == 0 && u.owner.Some?
    ensures UploadOk(c, id, Resolved(u, matches))
    ensures forall q: RequestId :: u.holder == None && u.owner != Some(q) ==> Fits(u, Resolved(u, matches), q)
  {
  }

  lemma ResolveLogs(c: Config, s: Registry, r: RequestId, ok: bool, lands: bool, s': Registry)
    requires LogInv(c, s) && Taken(c, s, Resolve(r, ok, lands), s')
    requires SessionInv(c, s, c.requests[r].id) && RequestInv(c, s, r)
    ensures LogInv(c, s')
  {
    var id := c.requests[r].id;
    forall k | 0 <= k < |s.log| ensures CommitOk(c, s', s.log[k]) && s.log[k].id != id {
      assert CommitOk(c, s, s.log[k]);
      if s.log[k].id != id {
        assert s'.sessions[s.log[k].id] == s.sessions[s.log[k].id];
      }
    }
    if s'.log != s.log {
      assert CommitOk(c, s', s'.log[|s.log|]);
    }
  }

  lemma ManifestKeeps(c: Config, s: Registry, step: Step, s': Registry)
    requires Inv(c, s) && Taken(c, s, step, s') && (step.StoreManifest? || step.RecordManifest?)
    ensures Inv(c, s')
  {
    assert RequestInv(c, s, step.r);
    PcMoves(c, s, s', step.r);
  }

  lemma CloseKeeps(c: Config, s: Registry, step: Step, s': Registry)
    requires Inv(c, s) && Taken(c, s, step, s') && (step.BeginClose? || step.EndClose? || step.CloseOne?)
    ensures Inv(c, s')
  {
    LogStays(c, s, s');
    forall q | q in s'.pc ensures RequestInv(c, s', q) {
      assert RequestInv(c, s, q);
      RequestStays(c, s, s', q);
    }
    forall id | id in s'.sessions ensures SessionInv(c, s', id) {
      assert SessionInv(c, s, id);
    }
  }

  lemma StepKeeps(c: Config, s: Registry, step: Step, s': Registry)
    requires Inv(c, s) && Taken(c, s, step, s')
    ensures Inv(c, s')
  {
    match step
    case Open(id) => OpenKeeps(c, s, id, s');
    case Lookup(r) => LookupKeeps(c, s, r, s');
    case LockSession(r) => LockSessionKeeps(c, s, r, s');
    case Write(r, n, fails) => WriteKeeps(c, s, r, n, fails, s');
    case EndCopy(r) => EndCopyKeeps(c, s, r, s');
    case Remove(r) => RemoveKeeps(c, s, r, s');
    case CancelSession(r) => CancelSessionKeeps(c, s, r, s');
    case Drop(r) => DropKeeps(c, s, r, s');
    case Resolve(r, ok, lands) => ResolveKeeps(c, s, r, ok, lands, s');
    case Whole(r, complete, ok, lands) => WholeKeeps(c, s, r, complete, ok, lands, s');
    case StoreManifest(_, _, _) => ManifestKeeps(c, s, step, s');
    case RecordManifest(_) => ManifestKeeps(c, s, step, s');
    case _ => CloseKeeps(c, s, step, s');
  }

  lemma InitInv(c: Config)
    ensures Inv(c, Init(c))
  {
  }

  // Runs ----------------------------------------------------------------------------------

  ghost predicate Next(c: Config, s: Registry, s': Registry) {
    exists step :: Taken(c, s, step, s')
  }

  ghost predicate StepTaken(c: Config, run: seq<Registry>, i: int) {
    0 <= i < |run| - 1 ==> Next(c, run[i], run[i + 1])
  }

  ghost predicate IsRun(c: Config, run: seq<Registry>) {
    |run| >= 1 && run[0] == Init(c) && forall i :: StepTaken(c, run, i)
  }

  lemma {:induction false} RunInv(c: Config, run: seq<Registry>, i: nat)
    requires IsRun(c, run) && i < |run|
    ensures Inv(c, run[i])
  {
    if i == 0 {
      InitInv(c);
    } else {
      RunInv(c, run, i - 1);
      assert StepTaken(c, run, i - 1);
      var step :| Taken(c, run[i - 1], step, run[i]);
      StepKeeps(c, run[i - 1], step, run[i]);
    }
  }

  /**
   In every interleaving: every blob and manifest the registry stores sits under the digest
   of exactly its bytes; the running digest and the byte count of a session cover exactly
   what its staged writer holds; and a session starts at most one commit.
   */
  lemma StoredUnderDigest(c: Config, run: seq<Registry>, i: nat)
    requires IsRun(c, run) && i < |run|
    ensures forall d :: d in run[i].cas ==> c.sha(run[i].cas[d]) == d
    ensures forall name :: name in run[i].manifestsByName ==> run[i].manifestsByName[name] in run[i].cas
    ensures forall id :: id in run[i].sessions ==>
              && run[i].sessions[id].digested == run[i].sessions[id].persisted
              && run[i].sessions[id].written == |run[i].sessions[id].persisted|
              && run[i].sessions[id].commits <= 1
  {
    var s := run[i];
    RunInv(c, run, i);
    forall id | id in s.sessions ensures UploadOk(c, id, s.sessions[id]) {
      assert SessionInv(c, s, id);
    }
  }

  /**
   A success answer is kept for good: the PATCH's bytes are staged, the blob or manifest is
   in the store under its digest, and the last manifest digest of the name is known.
   */
  lemma AnswersKept(c: Config, run: seq<Registry>, i: nat, r: RequestId)
    requires IsRun(c, run) && i < |run| && r in run[i].pc && run[i].pc[r] == Answered(true)
    ensures r in c.requests && Kept(c, run[i], r)
  {
    RunInv(c, run, i);
    assert RequestInv(c, run[i], r);
  }

  /** A PATCH of the session that was answered with success. */
  predicate PatchedWith(c: Config, s: Registry, id: SessionId, r: RequestId) {
    r in c.requests && c.requests[r].Patch? && c.requests[r].id == id && r in s.pc && s.pc[r] == Answered(true)
  }

  /**
   A committed chunked upload is what was copied from its requests' bodies, in the order in
   which they held the session: all of the final PUT's body last, all of the body of every
   PATCH that was answered with success, and prefixes of the bodies of the others. Its digest
   is the one the PUT asked for, and no two commits are of the same session.
   */
  lemma CommitsAreUploads(c: Config, run: seq<Registry>, i: nat, k: nat)
    requires IsRun(c, run) && i < |run| && k < |run[i].log|
    ensures CommitOk(c, run[i], run[i].log[k])
    ensures forall r :: PatchedWith(c, run[i], run[i].log[k].id, r) ==>
              Part(r, |c.requests[r].body|) in run[i].log[k].parts
    ensures forall j :: 0 <= j < |run[i].log| && j != k ==> run[i].log[j].id != run[i].log[k].id
  {
    var s := run[i];
    RunInv(c, run, i);
    assert CommitOk(c, s, s.log[k]);
    forall r | PatchedWith(c, s, s.log[k].id, r) ensures Part(r, |c.requests[r].body|) in s.log[k].parts {
      assert RequestInv(c, s, r);
    }
  }

  /** Step `i` of the run is `step`. */
  ghost predicate StepAt(c: Config, run: seq<Registry>, i: int, step: Step) {
    0 <= i < |run| - 1 && Taken(c, run[i], step, run[i + 1])
  }

  predicate Refusing(p: Pc) {
    p == Broken || p == Removed || p == Answered(false)
  }

  /**
   The steps that decide against a request: its session is unknown or finished, its digest is
   malformed or not that of the bytes, its body breaks off, its writer was cancelled, or the
   store fails.
   */
  predicate Refuses(c: Config, s: Registry, step: Step, r: RequestId)
    requires Enabled(c, s, step)
  {
    match step
    case Lookup(q) =>
      q == r && (c.requests[r].id !in s.uploads || (c.requests[r].Put? && !c.wellFormed(c.requests[r].digest)))
    case LockSession(q) => q == r && s.sessions[c.requests[r].id].finished
    case Write(q, _, fails) => q == r && (fails || s.sessions[c.requests[r].id].detached)
    case Resolve(q, ok, _) =>
      q == r &&
      var u := s.sessions[c.requests[r].id];
      !ok || u.staged != Streaming || c.sha(u.persisted) != c.requests[r].digest
    case Whole(q, complete, ok, _) =>
      q == r && (!complete || !ok || !c.wellFormed(c.requests[r].digest) ||
                 c.sha(c.requests[r].body) != c.requests[r].digest)
    case StoreManifest(q, ok, _) => q == r && !ok
    case _ => false
  }

  /** Step `i` decides against `r`. */
  ghost predicate RefusedAt(c: Config, run: seq<Registry>, i: int, step: Step, r: RequestId) {
    StepAt(c, run, i, step) && Refuses(c, run[i], step, r)
  }

  lemma OwnDigest(c: Config, s: Registry, r: RequestId)
    requires Inv(c, s) && At(c, s, r, true) && s.pc[r].Dropped?
    ensures InSession(c, s, r) && s.pc[r].actual == c.sha(s.sessions[c.requests[r].id].persisted)
  {
    assert RequestInv(c, s, r) && SessionInv(c, s, c.requests[r].id);
  }

  lemma RefusingStep(c: Config, s: Registry, step: Step, s': Registry, r: RequestId)
    requires Taken(c, s, step, s') && r in s.pc && r in s'.pc
    requires step.Resolve? && step.r == r ==>
               s.pc[r].actual == c.sha(s.sessions[c.requests[r].id].persisted)
    ensures Refusing(s'.pc[r]) <==> Refusing(s.pc[r]) || Refuses(c, s, step, r)
  {
    if step.Resolve? {
      ResolvingStep(c, s, step, s', r);
    }
  }

  lemma ResolvingStep(c: Config, s: Registry, step: Step, s': Registry, r: RequestId)
    requires Taken(c, s, step, s') && r in s.pc && r in s'.pc && step.Resolve?
    requires step.r == r ==> s.pc[r].actual == c.sha(s.sessions[c.requests[r].id].persisted)
    ensures Refusing(s'.pc[r]) <==> Refusing(s.pc[r]) || Refuses(c, s, step, r)
  {
  }

  lemma RefusingNext(c: Config, run: seq<Registry>, i: nat, step: Step, r: RequestId)
    requires IsRun(c, run) && StepAt(c, run, i, step) && r in c.requests
    ensures r in run[i].pc && r in run[i + 1].pc
    ensures Refusing(run[i + 1].pc[r]) <==> Refusing(run[i].pc[r]) || Refuses(c, run[i], step, r)
  {
    RunInv(c, run, i);
    RunInv(c, run, i + 1);
    if step.Resolve? && step.r == r {
      OwnDigest(c, run[i], r);
    }
    RefusingStep(c, run[i], step, run[i + 1], r);
  }

  lemma StepBefore(c: Config, run: seq<Registry>, i: nat) returns (k: nat, step: Step)
    requires IsRun(c, run) && 0 < i < |run|
    ensures k == i - 1 && StepAt(c, run, k, step)
  {
    k := i - 1;
    assert StepTaken(c, run, k);
    step :| Taken(c, run[k], step, run[i]);
  }

  lemma {:induction false} RefusedBy(c: Config, run: seq<Registry>, i: nat, r: RequestId) returns (k: nat, step: Step)
    requires IsRun(c, run) && i < |run| && r in c.requests && r in run[i].pc && Refusing(run[i].pc[r])
    ensures k < i && RefusedAt(c, run, k, step, r)
  {
    k, step := StepBefore(c, run, i);
    RefusingNext(c, run, k, step, r);
    if !Refuses(c, run[k], step, r) {
      k, step := RefusedBy(c, run, k, r);
    }
  }

  lemma {:induction false} RefusalStays(c: Config, run: seq<Registry>, k: nat, i: nat, r: RequestId)
    requires IsRun(c, run) && k <= i < |run| && r in c.requests && r in run[k].pc && Refusing(run[k].pc[r])
    ensures r in run[i].pc && Refusing(run[i].pc[r])
  {
    if k < i {
      RefusalStays(c, run, k, i - 1, r);
      var last, step := StepBefore(c, run, i);
      RefusingNext(c, run, last, step, r);
    }
  }

  /**
   A request fails exactly when some step decided against it. So a PUT whose digest is that
   of the staged bytes is committed unless its writer was cancelled or the store failed.
   */
  lemma RefusedForCause(c: Config, run: seq<Registry>, i: nat, r: RequestId)
    requires IsRun(c, run) && i < |run| && r in c.requests
    ensures r in run[i].pc
    ensures Refusing(run[i].pc[r]) <==> exists k, step :: 0 <= k < i && RefusedAt(c, run, k, step, r)
  {
    RunInv(c, run, i);
    if Refusing(run[i].pc[r]) {
      var k, step := RefusedBy(c, run, i, r);
    }
    forall k, step | 0 <= k < i && RefusedAt(c, run, k, step, r) ensures Refusing(run[i].pc[r]) {
      RefusingNext(c, run, k, step, r);
      RefusalStays(c, run, k + 1, i, r);
    }
  }

  /** The commit of a PUT. */
  ghost predicate Logged(s: Registry, r: RequestId) {
    exists k :: 0 <= k < |s.log| && s.log[k].put == r
  }

  lemma LoggedStep(c: Config, s: Registry, step: Step, s': Registry, r: RequestId)
    requires Taken(c, s, step, s') && r in c.requests && c.requests[r].Put? && r in s.pc && r in s'.pc
    requires s.pc[r] == Answered(true) ==> Logged(s, r)
    ensures s'.pc[r] == Answered(true) ==> Logged(s', r)
  {
    if s'.pc[r] == Answered(true) {
      if s.pc[r] == Answered(true) {
        var k :| 0 <= k < |s.log| && s.log[k].put == r;
        assert s'.log[k] == s.log[k];
      } else {
        assert s'.log[|s.log|].put == r;
      }
    }
  }

  /** A PUT that was answered with success has committed its session. */
  lemma {:induction false} PutsCommitted(c: Config, run: seq<Registry>, i: nat, r: RequestId)
    requires IsRun(c, run) && i < |run| && r in c.requests && c.requests[r].Put?
    ensures r in run[i].pc && (run[i].pc[r] == Answered(true) ==> Logged(run[i], r))
  {
    RunInv(c, run, i);
    if i > 0 {
      PutsCommitted(c, run, i - 1, r);
      assert StepTaken(c, run, i - 1);
      var step :| Taken(c, run[i - 1], step, run[i]);
      LoggedStep(c, run[i - 1], step, run[i], r);
    }
  }

  /** Step `i` records the manifest of request `r` under `name`. */
  ghost predicate RecordsAt(c: Config, run: seq<Registry>, i: int, r: RequestId, name: string) {
    StepAt(c, run, i, RecordManifest(r)) && c.requests[r].name == name
  }

  lemma RecordStep(c: Config, s: Registry, step: Step, s': Registry, name: string)
    requires Taken(c, s, step, s') && !(step.RecordManifest? && c.requests[step.r].name == name)
    ensures name in s.manifestsByName ==>
              name in s'.manifestsByName && s'.manifestsByName[name] == s.manifestsByName[name]
  {
  }

  /** A name stands for the digest of the manifest that was recorded under it last. */
  lemma {:induction false} LatestManifest(c: Config, run: seq<Registry>, k: nat, i: nat, r: RequestId, name: string)
    requires IsRun(c, run) && k < i < |run| && RecordsAt(c, run, k, r, name)
    requires forall m, q :: k < m < i ==> !RecordsAt(c, run, m, q, name)
    ensures name in run[i].manifestsByName && run[i].manifestsByName[name] == c.sha(c.requests[r].body)
  {
    if k == i - 1 {
      RunInv(c, run, k);
      assert RequestInv(c, run[k], r);
    } else {
      LatestManifest(c, run, k, i - 1, r, name);
      assert StepTaken(c, run, i - 1);
      var step :| Taken(c, run[i - 1], step, run[i]);
      assert step.RecordManifest? && c.requests[step.r].name == name ==> RecordsAt(c, run, i - 1, step.r, name);
      RecordStep(c, run[i - 1], step, run[i], name);
    }
  }

  /** The steps that give a session up: Close, or a request whose body broke off. */
  predicate Cancels(c: Config, step: Step, id: SessionId) {
    step == CloseOne(id) || (step.CancelSession? && step.r in c.requests && c.requests[step.r].Chunked() &&
                             c.requests[step.r].id == id)
  }

  /** No request can add to the session any more, and nothing that it staged can still be committed. */
  predicate GivenUp(s: Registry, id: SessionId) {
    id in s.sessions && s.sessions[id].finished && s.sessions[id].staged != Streaming
  }

  /** A session loses its writer only by being cancelled. */
  predicate DetachedOk(s: Registry, id: SessionId) {
    id in s.sessions && s.sessions[id].detached ==> GivenUp(s, id)
  }

  lemma SessionStep(c: Config, s: Registry, step: Step, s': Registry, id: SessionId)
    requires Taken(c, s, step, s') && DetachedOk(s, id)
    ensures DetachedOk(s', id)
    ensures GivenUp(s, id) || Cancels(c, step, id) ==> GivenUp(s', id)
  {
    if step.CloseOne? || step.CancelSession? {
      CancelGivesUp(c, s, step, s', id);
    } else if step.Resolve? || step.LockSession? {
      OpenEnds(c, s, step, s', id);
    }
  }

  lemma CancelGivesUp(c: Config, s: Registry, step: Step, s': Registry, id: SessionId)
    requires Taken(c, s, step, s') && DetachedOk(s, id) && (step.CloseOne? || step.CancelSession?)
    ensures DetachedOk(s', id) && (GivenUp(s, id) || Cancels(c, step, id) ==> GivenUp(s', id))
  {
  }

  lemma OpenEnds(c: Config, s: Registry, step: Step, s': Registry, id: SessionId)
    requires Taken(c, s, step, s') && DetachedOk(s, id) && (step.Resolve? || step.LockSession?)
    ensures DetachedOk(s', id) && (GivenUp(s, id) ==> GivenUp(s', id))
  {
  }

  lemma {:induction false} DetachedInRun(c: Config, run: seq<Registry>, i: nat, id: SessionId)
    requires IsRun(c, run) && i < |run|
    ensures DetachedOk(run[i], id)
  {
    if i > 0 {
      DetachedInRun(c, run, i - 1, id);
      var k, step := StepBefore(c, run, i);
      SessionStep(c, run[k], step, run[i], id);
    }
  }

  ghost predicate CancelsAt(c: Config, run: seq<Registry>, i: int, step: Step, id: SessionId) {
    StepAt(c, run, i, step) && Cancels(c, step, id)
  }

  /** A session that Close or a broken body has cancelled stays given up. */
  lemma {:induction false} CancelledForGood(c: Config, run: seq<Registry>, k: nat, i: nat, step: Step, id: SessionId)
    requires IsRun(c, run) && k < i < |run| && CancelsAt(c, run, k, step, id)
    ensures GivenUp(run[i], id)
  {
    DetachedInRun(c, run, i - 1, id);
    if k == i - 1 {
      SessionStep(c, run[k], step, run[i], id);
    } else {
      CancelledForGood(c, run, k, i - 1, step, id);
      var last, next := StepBefore(c, run, i);
      SessionStep(c, run[last], next, run[i], id);
    }
  }
}
