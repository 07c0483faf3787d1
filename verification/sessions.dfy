/** Requests, results, snapshots, and the serial specification of a session store: a map from
    session ids to sessions, one operation at a time. Both backends and the facade are
    measured against it. */
module Sessions {
  import opened Core
  import opened Ordering
  import Utf8

  datatype RunStatus =
    | StatusOk | ValidationError | RuntimeError | TimedOut | Cancelled
    | ResourceExhausted | PermissionDenied | WaitingForApproval

  datatype RunResult = RunResult(
    status: RunStatus,
    error: Option<ErrorObject>,
    result: Option<Json>,
    stdout: seq<Utf8.Byte>,
    stdoutCut: bool,                     // the STDOUT_EXCEEDED diagnostic
    calls: seq<CallRecord>)

  function ErrorResult(status: RunStatus, error: ErrorObject): RunResult {
    RunResult(status, Some(error), None, [], false, [])
  }

  /** What the world chooses in one run: the tools' answers, in the order of the calls, and the order
      in which asynchronous calls finish. */
  datatype Choices = Choices(answers: seq<Result<Json>>, order: seq<nat>)

  /** A request, and the choices that its run will meet. */
  datatype Request = Request(
    sessionId: string,
    language: Language,
    code: string,
    limits: Option<Limits>,
    timeoutMs: Option<U32>,
    validateOnly: bool,
    choices: Choices)

  function EffectiveLimits(defaults: Limits, request: Request): Limits {
    var limits := if request.limits.Some? then request.limits.value else defaults;
    if request.timeoutMs.Some? then limits.(wallMs := request.timeoutMs.value) else limits
  }

  const SNAPSHOT_VERSION: nat := 2

  /** Snapshot bytes: what the envelope decoder makes of them. */
  datatype Blob<+P> =
    | Garbage
    | Envelope(magic: string, version: nat, sessionId: string, limits: Limits, payload: P, digest: string)

  datatype Session<+D> = Session(id: string, limits: Limits, state: D)

  /** A backend's engine. `D` is an engine state, `P` its dump. */
  datatype Backend<!D, !P> = Backend(
    language: Language,
    magic: string,
    digest: string,                                       // of the registered tool names
    defaults: Limits,
    create: (string, Limits) -> Result<D>,
    execute: (D, Limits, Request) -> (D, RunResult),
    validate: Request -> RunResult,
    dump: D -> Result<P>,
    load: (string, Limits, P) -> Result<D>)

  datatype Op<+P> =
    | Create(id: string, limits: Option<Limits>)
    | Run(request: Request)
    | Destroy(id: string)
    | List
    | Snapshot(id: string)
    | Restore(blob: Blob<P>, asId: Option<string>)

  datatype Reply<+P> =
    | Created(created: Result<()>)
    | Ran(result: RunResult)
    | Destroyed(removed: bool)
    | Listed(ids: seq<string>)
    | Snapped(blob: Result<Blob<P>>)
    | Restored(id: Result<string>)

  const WRONG_LANGUAGE := ErrorObject("UNSUPPORTED_FEATURE", "The runtime does not execute this language.")
  const NOT_FOUND := ErrorObject("SESSION_NOT_FOUND", "Session does not exist.")
  const CORRUPT := ErrorObject("SNAPSHOT_CORRUPT", "Invalid snapshot.")
  const WRONG_VERSION := ErrorObject("SNAPSHOT_VERSION_MISMATCH", "Snapshot version is not supported.")
  const WRONG_TOOLS :=
    ErrorObject("SNAPSHOT_CAPABILITY_MISMATCH", "Snapshot was created with a different capability set.")

  type Store<+D> = map<string, Session<D>>

  /** A run that does not reach a session: wrong language, or validation only. */
  function Rejected<D, P>(b: Backend<D, P>, request: Request): Option<RunResult> {
    if request.language != b.language then Some(ErrorResult(ValidationError, WRONG_LANGUAGE))
    else if request.validateOnly then Some(b.validate(request))
    else None
  }

  /** The session a run executes in: the stored one under the run's limits, or a new one. */
  function Opened<D, P>(b: Backend<D, P>, stored: Option<Session<D>>, request: Request): Result<Session<D>> {
    var limits := EffectiveLimits(b.defaults, request);
    match stored
    case Some(session) => Ok(session.(limits := limits))
    case None =>
      match b.create(request.sessionId, limits)
      case Ok(state) => Ok(Session(request.sessionId, limits, state))
      case Err(error) => Err(error)
  }

  function Executed<D, P>(b: Backend<D, P>, session: Session<D>, request: Request): (Session<D>, RunResult) {
    var (state, result) := b.execute(session.state, session.limits, request);
    (session.(state := state), result)
  }

  /** The checks of a snapshot, in order, up to loading it. */
  function Reopened<D, P>(b: Backend<D, P>, blob: Blob<P>, asId: Option<string>): Result<Session<D>> {
    match blob
    case Garbage => Err(CORRUPT)
    case Envelope(magic, version, sessionId, limits, payload, digest) =>
      if magic != b.magic then Err(CORRUPT)
      else if version != SNAPSHOT_VERSION then Err(WRONG_VERSION)
      else if digest != b.digest then Err(WRONG_TOOLS)
      else
        var id := if asId.Some? then asId.value else sessionId;
        match b.load(id, limits, payload)
        case Ok(state) => Ok(Session(id, limits, state))
        case Err(error) => Err(error)
  }

  function Wrapped<D, P>(b: Backend<D, P>, session: Session<D>): Result<Blob<P>> {
    match b.dump(session.state)
    case Ok(payload) => Ok(Envelope(b.magic, SNAPSHOT_VERSION, session.id, session.limits, payload, b.digest))
    case Err(error) => Err(error)
  }

  function Lookup<D>(m: Store<D>, id: string): Option<Session<D>> {
    if id in m then Some(m[id]) else None
  }

  // ----- One session at a time ---------------------------------------------------

  /** The id an operation is about; `List` and corrupt restores are about none. */
  function Target<P>(op: Op<P>): Option<string> {
    match op
    case Create(id, _) => Some(id)
    case Run(request) => Some(request.sessionId)
    case Destroy(id) => Some(id)
    case List => None
    case Snapshot(id) => Some(id)
    case Restore(Garbage, _) => None
    case Restore(Envelope(_, _, sessionId, _, _, _), asId) => Some(if asId.Some? then asId.value else sessionId)
  }

  /** What an operation does to the session it is about, and what it answers. */
  function Act<D, P>(b: Backend<D, P>, cell: Option<Session<D>>, op: Op<P>): (Option<Session<D>>, Reply<P>)
    requires !op.List?
  {
    match op
    case Create(id, limits) =>
      if cell.Some? then (cell, Created(Ok(())))
      else
        var limits := if limits.Some? then limits.value else b.defaults;
        (match b.create(id, limits)
         case Ok(state) => (Some(Session(id, limits, state)), Created(Ok(())))
         case Err(error) => (None, Created(Err(error))))
    case Run(request) =>
      var rejected := Rejected(b, request);
      if rejected.Some? then (cell, Ran(rejected.value))
      else
        (match Opened(b, cell, request)
         case Err(error) => (cell, Ran(ErrorResult(RuntimeError, error)))
         case Ok(session) =>
           var (session', result) := Executed(b, session, request);
           (Some(session'), Ran(result)))
    case Destroy(_) => (None, Destroyed(cell.Some?))
    case Snapshot(_) => (cell, Snapped(if cell.Some? then Wrapped(b, cell.value) else Err(NOT_FOUND)))
    case Restore(blob, asId) =>
      (match Reopened(b, blob, asId)
       case Ok(session) => (Some(session), Restored(Ok(session.id)))
       case Err(error) => (cell, Restored(Err(error))))
  }

  function Put<D>(m: Store<D>, id: string, cell: Option<Session<D>>): Store<D> {
    if cell.Some? then m[id := cell.value] else m - {id}
  }

  /** The serial specification. */
  ghost function Serial<D, P>(b: Backend<D, P>, m: Store<D>, op: Op<P>): (Store<D>, Reply<P>) {
    match op
    case List => (m, Listed(Listing(m.Keys)))
    case _ =>
      var target := Target(op);
      if target.None? then (m, Act(b, None, op).1)
      else
        var (cell, reply) := Act(b, Lookup(m, target.value), op);
        (Put(m, target.value, cell), reply)
  }

  ghost function SerialAll<D, P>(b: Backend<D, P>, m: Store<D>, ops: seq<Op<P>>): Store<D> {
    if ops == [] then m else Serial(b, SerialAll(b, m, ops[..|ops|-1]), ops[|ops|-1]).0
  }

  /** Every session is stored under its own id. */
  ghost predicate KeyedById<D>(m: Store<D>) {
    forall id :: id in m ==> m[id].id == id
  }

  lemma ActKeepsId<D, P>(b: Backend<D, P>, cell: Option<Session<D>>, op: Op<P>)
    requires !op.List? && Target(op).Some?
    requires cell.Some? ==> cell.value.id == Target(op).value
    ensures Act(b, cell, op).0.Some? ==> Act(b, cell, op).0.value.id == Target(op).value
  {}

  lemma SerialKeepsKeys<D, P>(b: Backend<D, P>, m: Store<D>, op: Op<P>)
    requires KeyedById(m)
    ensures KeyedById(Serial(b, m, op).0)
  {
    if !op.List? && Target(op).Some? {
      ActKeepsId(b, Lookup(m, Target(op).value), op);
    }
  }

  /** The operations about one id. */
  function About<P>(ops: seq<Op<P>>, id: string): seq<Op<P>> {
    if ops == [] then []
    else
      var n := |ops| - 1;
      if Target(ops[n]) == Some(id) then About(ops[..n], id) + [ops[n]] else About(ops[..n], id)
  }

  lemma {:induction false} Isolation<D, P>(b: Backend<D, P>, m: Store<D>, ops: seq<Op<P>>, id: string)
    ensures Lookup(SerialAll(b, m, ops), id) == Lookup(SerialAll(b, m, About(ops, id)), id)
  {
    if ops != [] {
      var n := |ops| - 1;
      Isolation(b, m, ops[..n], id);
      SerialIsLocal(b, SerialAll(b, m, ops[..n]), SerialAll(b, m, About(ops[..n], id)), ops[n], id);
      if Target(ops[n]) == Some(id) {
        assert About(ops, id)[..|About(ops, id)|-1] == About(ops[..n], id);
      }
      hide Serial, Lookup, Target;
    }
  }

  /** An operation depends on, and changes, only the session it is about. */
  lemma SerialIsLocal<D, P>(b: Backend<D, P>, m: Store<D>, m': Store<D>, op: Op<P>, id: string)
    requires Lookup(m, id) == Lookup(m', id)
    ensures if Target(op) == Some(id) then Lookup(Serial(b, m, op).0, id) == Lookup(Serial(b, m', op).0, id)
            else Lookup(Serial(b, m, op).0, id) == Lookup(m, id)
  {
    hide Act;
  }

  /** Sessions are isolated: the answer to an operation, and the state of its session, are those of
      running only that session's operations. */
  lemma AnswerIsolation<D, P>(b: Backend<D, P>, m: Store<D>, ops: seq<Op<P>>, op: Op<P>, id: string)
    requires Target(op) == Some(id)
    ensures Serial(b, SerialAll(b, m, ops), op).1 == Serial(b, SerialAll(b, m, About(ops, id)), op).1
  {
    Isolation(b, m, ops, id);
  }

  /** A snapshot restored by the same backend under any id gives back the dumped session. */
  lemma SnapshotRestores<D, P>(b: Backend<D, P>, m: Store<D>, id: string, m': Store<D>, asId: Option<string>)
    requires KeyedById(m) && id in m
    requires Serial(b, m, Snapshot(id)).1.blob.Ok?
    ensures var blob := Serial(b, m, Snapshot(id)).1.blob.value;
      var newId := if asId.Some? then asId.value else id;
      && blob.Envelope? && b.dump(m[id].state) == Ok(blob.payload)
      && (b.load(newId, m[id].limits, blob.payload).Ok? ==>
            Serial(b, m', Restore(blob, asId))
            == (m'[newId := Session(newId, m[id].limits, b.load(newId, m[id].limits, blob.payload).value)],
                Restored(Ok(newId))))
  {}

  // ----- What each operation does, from outside -----------------------------------------

  /** A restore succeeds if and only if the snapshot is one, of this backend, of this version and of
      these tools, and the engine loads it; then exactly the chosen cell is set. Otherwise the first
      thing that is wrong gives the error, and the store stays as it was. */
  lemma RestoreExactly<D, P>(b: Backend<D, P>, m: Store<D>, blob: Blob<P>, asId: Option<string>)
    ensures var (m', reply) := Serial(b, m, Restore(blob, asId));
      && reply.Restored?
      && (reply.id.Ok? <==>
            && blob.Envelope? && blob.magic == b.magic && blob.version == 2 && blob.digest == b.digest
            && b.load(if asId.Some? then asId.value else blob.sessionId, blob.limits, blob.payload).Ok?)
      && (reply.id.Ok? ==>
            && reply.id.value == (if asId.Some? then asId.value else blob.sessionId)
            && var loaded := b.load(reply.id.value, blob.limits, blob.payload);
               m' == m[reply.id.value := Session(reply.id.value, blob.limits, loaded.value)])
      && (reply.id.Err? ==> m' == m)
      && (blob.Garbage? || blob.magic != b.magic ==> reply.id.Err? && reply.id.error.code == "SNAPSHOT_CORRUPT")
      && (blob.Envelope? && blob.magic == b.magic && blob.version != 2 ==>
            reply.id.Err? && reply.id.error.code == "SNAPSHOT_VERSION_MISMATCH")
      && (blob.Envelope? && blob.magic == b.magic && blob.version == 2 && blob.digest != b.digest ==>
            reply.id.Err? && reply.id.error.code == "SNAPSHOT_CAPABILITY_MISMATCH")
  {
    if Target(Restore(blob, asId)).Some? {
      var id := Target(Restore(blob, asId)).value;
      assert Put(m, id, Lookup(m, id)) == m;
    }
  }

  /** A snapshot changes nothing; it fails exactly if there is no such session or the engine does not
      dump it, and otherwise carries the session's id, limits and dump, marked with the backend's magic,
      the version and the tools. */
  lemma SnapshotExactly<D, P>(b: Backend<D, P>, m: Store<D>, id: string)
    requires KeyedById(m)
    ensures var (m', reply) := Serial(b, m, Snapshot(id));
      && m' == m && reply.Snapped?
      && (id !in m ==> reply.blob == Err(NOT_FOUND))
      && (id in m && b.dump(m[id].state).Err? ==> reply.blob.Err? && reply.blob.error == b.dump(m[id].state).error)
      && (id in m && b.dump(m[id].state).Ok? ==>
            reply.blob == Ok(Envelope(b.magic, 2, id, m[id].limits, b.dump(m[id].state).value, b.digest)))
  {
    assert Put(m, id, Lookup(m, id)) == m;
  }

  /** The limits of a run: the request's, or else the backend's, never those the session had; and the
      request's timeout, if it has one, in place of the wall-clock limit. */
  ghost predicate RunLimits<D, P>(b: Backend<D, P>, request: Request, limits: Limits) {
    var given := request.limits.Some?;
    && limits.maxStdoutBytes == (if given then request.limits.value.maxStdoutBytes else b.defaults.maxStdoutBytes)
    && limits.maxExternalCalls == (if given then request.limits.value.maxExternalCalls else b.defaults.maxExternalCalls)
    && limits.wallMs == (if request.timeoutMs.Some? then request.timeoutMs.value
                         else if given then request.limits.value.wallMs else b.defaults.wallMs)
  }

  /** A run for another language, or one that is only to be validated, leaves the store alone. Any other
      run executes in the stored session, or in a new one, under the run's limits; its answer is the
      engine's, and the session goes on from where the engine left it. */
  lemma RunExactly<D, P>(b: Backend<D, P>, m: Store<D>, request: Request) returns (limits: Limits)
    requires KeyedById(m)
    ensures RunLimits(b, request, limits)
    ensures var (m', reply) := Serial(b, m, Run(request));
      var id := request.sessionId;
      && reply.Ran?
      && (request.language != b.language ==>
            m' == m && reply.result == RunResult(ValidationError, Some(WRONG_LANGUAGE), None, [], false, []))
      && (request.language == b.language && request.validateOnly ==> m' == m && reply.result == b.validate(request))
      && (request.language == b.language && !request.validateOnly ==>
            match (if id in m then Ok(m[id].state) else b.create(id, limits))
            case Err(error) =>
              m' == m && reply.result == RunResult(RuntimeError, Some(error), None, [], false, [])
            case Ok(state) =>
              var (after, result) := b.execute(state, limits, request);
              m' == m[id := Session(id, limits, after)] && reply.result == result)
  {
    limits := EffectiveLimits(b.defaults, request);
    assert Put(m, request.sessionId, Lookup(m, request.sessionId)) == m;
  }

  /** Creating a session that exists changes nothing; a new one has the given limits, or else the
      backend's. Destroying one takes it away and tells whether it was there. */
  lemma CreateAndDestroyExactly<D, P>(b: Backend<D, P>, m: Store<D>, id: string, limits: Option<Limits>)
    ensures var (m', reply) := Serial(b, m, Create(id, limits));
      if id in m then m' == m && reply == Created(Ok(()))
      else
        var chosen := if limits.Some? then limits.value else b.defaults;
        match b.create(id, chosen)
        case Ok(state) => m' == m[id := Session(id, chosen, state)] && reply == Created(Ok(()))
        case Err(error) => m' == m && reply == Created(Err(error))
    ensures var (m', reply) := Serial(b, m, Destroy(id));
      m' == m - {id} && reply == Destroyed(id in m)
  {
    assert Put(m, id, Lookup(m, id)) == m;
    assert id !in m ==> m - {id} == m;
  }
}
