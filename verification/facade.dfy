/** The LangShell facade over several backends: a finite map keyed by language and session id. */
module Facade {
  import opened Core
  import opened Ordering
  import opened Sessions

  const NO_RUNTIME := ErrorObject("UNSUPPORTED_FEATURE", "No language runtime is registered for this language.")
  const NO_RUNTIMES := ErrorObject("INVALID_ARGUMENT", "At least one language runtime must be registered.")
  const DUPLICATE := ErrorObject("INVALID_ARGUMENT", "A runtime for this language is already registered.")
  const BAD_ID := ErrorObject("INVALID_SESSION_ID", "Session id must match ^[a-zA-Z0-9_\\-]{1,64}$.")
  const CLOSED := ErrorObject("RUNTIME_ERROR", "LangShell Deno worker is not available.")
  const NOBODY := ErrorObject("SNAPSHOT_CORRUPT", "No registered language runtime can restore this snapshot.")

  predicate IsValidSessionId(id: string) {
    1 <= |id| <= 64 && forall i :: 0 <= i < |id| ==>
      'a' <= id[i] <= 'z' || 'A' <= id[i] <= 'Z' || '0' <= id[i] <= '9' || id[i] == '_' || id[i] == '-'
  }

  /** A registered backend; when it is not `up`, every operation fails. */
  datatype Runtime<!D, !P> = Runtime(b: Backend<D, P>, store: Store<D>, up: bool)

  ghost predicate DistinctLanguages<D, P>(rs: seq<Runtime<D, P>>) {
    forall i, j :: 0 <= i < j < |rs| ==> rs[i].b.language != rs[j].b.language
  }

  const MONTY_MAGIC := "langshell-monty-snapshot/v1"
  const DENO_MAGIC := "langshell-deno-snapshot/v1"

  /** The backend marks its snapshots with the magic of its language. */
  predicate OwnMagic<D, P>(b: Backend<D, P>) {
    b.magic == match b.language case Python => MONTY_MAGIC case TypeScript => DENO_MAGIC
  }

  ghost predicate OwnMagics<D, P>(rs: seq<Runtime<D, P>>) {
    forall i :: 0 <= i < |rs| ==> OwnMagic(rs[i].b)
  }

  /** So no two backends share a magic. */
  lemma MagicsDiffer<D, P>(rs: seq<Runtime<D, P>>, i: nat, j: nat)
    requires DistinctLanguages(rs) && OwnMagics(rs) && i < |rs| && j < |rs|
    ensures rs[i].b.magic == rs[j].b.magic <==> i == j
  {
    assert MONTY_MAGIC[10] == 'm' && DENO_MAGIC[10] == 'd';
  }

  ghost predicate AllUp<D, P>(rs: seq<Runtime<D, P>>) {
    forall i :: 0 <= i < |rs| ==> rs[i].up
  }

  function IndexOf<D, P>(rs: seq<Runtime<D, P>>, language: Language): Option<nat> {
    if rs == [] then None
    else if rs[0].b.language == language then Some(0)
    else match IndexOf(rs[1..], language) case Some(i) => Some(i + 1) case None => None
  }

  lemma {:induction false} IndexOfExactly<D, P>(rs: seq<Runtime<D, P>>, language: Language)
    ensures match IndexOf(rs, language)
      case Some(i) =>
        i < |rs| && rs[i].b.language == language && forall j :: 0 <= j < i ==> rs[j].b.language != language
      case None => forall j :: 0 <= j < |rs| ==> rs[j].b.language != language
  {
    if rs != [] && rs[0].b.language != language {
      IndexOfExactly(rs[1..], language);
      assert rs == [rs[0]] + rs[1..];
    }
  }

  /** The abstract state: the session of a language under an id. */
  function At<D, P>(rs: seq<Runtime<D, P>>, language: Language, id: string): Option<Session<D>> {
    if rs == [] then None
    else if rs[0].b.language == language then Lookup(rs[0].store, id)
    else At(rs[1..], language, id)
  }

  lemma {:induction false} AtIndex<D, P>(rs: seq<Runtime<D, P>>, i: nat, id: string)
    requires DistinctLanguages(rs) && i < |rs|
    ensures At(rs, rs[i].b.language, id) == Lookup(rs[i].store, id)
  {
    if i > 0 {
      assert DistinctLanguages(rs[1..]);
      AtIndex(rs[1..], i - 1, id);
    }
  }

  lemma {:induction false} AtNowhere<D, P>(rs: seq<Runtime<D, P>>, language: Language, id: string)
    requires forall i :: 0 <= i < |rs| ==> rs[i].b.language != language
    ensures At(rs, language, id) == None
  {
    if rs != [] { AtNowhere(rs[1..], language, id); }
  }

  /** The state after one session cell is set. */
  ghost predicate Updates<D, P>(before: seq<Runtime<D, P>>, after: seq<Runtime<D, P>>,
                                language: Language, id: string, cell: Option<Session<D>>)
  {
    forall l: Language, k: string ::
      At(after, l, k) == if l == language && k == id then cell else At(before, l, k)
  }

  lemma PutUpdates<D, P>(rs: seq<Runtime<D, P>>, i: nat, id: string, cell: Option<Session<D>>)
    requires DistinctLanguages(rs) && i < |rs|
    ensures var rs' := rs[i := rs[i].(store := Put(rs[i].store, id, cell))];
      DistinctLanguages(rs') && Updates(rs, rs', rs[i].b.language, id, cell)
  {
    var rs' := rs[i := rs[i].(store := Put(rs[i].store, id, cell))];
    assert forall j :: 0 <= j < |rs| ==> rs'[j].b == rs[j].b;
    forall l: Language, k: string
      ensures At(rs', l, k) == if l == rs[i].b.language && k == id then cell else At(rs, l, k)
    {
      if j :| 0 <= j < |rs| && rs[j].b.language == l {
        AtIndex(rs, j, k);
        AtIndex(rs', j, k);
      } else {
        AtNowhere(rs, l, k);
        AtNowhere(rs', l, k);
      }
    }
  }

  /** Builds one runtime per factory; refuses a second one for a language, and none at all. */
  method Build<D, P>(backends: seq<Backend<D, P>>) returns (r: Result<seq<Runtime<D, P>>>)
    ensures r.Err? ==> r.error == if backends == [] then NO_RUNTIMES else DUPLICATE
    ensures r.Ok? <==> backends != []
                       && forall i, j :: 0 <= i < j < |backends| ==> backends[i].language != backends[j].language
    ensures r.Ok? ==> DistinctLanguages(r.value) && AllUp(r.value)
                      && |r.value| == |backends|
                      && forall i :: 0 <= i < |backends| ==> r.value[i] == Runtime(backends[i], map[], true)
  {
    var runtimes: seq<Runtime<D, P>> := [];
    for i := 0 to |backends|
      invariant |runtimes| == i
      invariant forall j :: 0 <= j < i ==> runtimes[j] == Runtime(backends[j], map[], true)
      invariant forall j, k :: 0 <= j < k < i ==> backends[j].language != backends[k].language
    {
      var existing := IndexOf(runtimes, backends[i].language);
      IndexOfExactly(runtimes, backends[i].language);
      if existing.Some? {
        return Err(DUPLICATE);
      }
      runtimes := runtimes + [Runtime(backends[i], map[], true)];
    }
    if runtimes == [] {
      return Err(NO_RUNTIMES);
    }
    r := Ok(runtimes);
  }

  /** Builds the facade over backends of the two languages. */
  method BuildShell<D, P>(backends: seq<Backend<D, P>>) returns (r: Result<LangShell<D, P>>)
    requires forall i :: 0 <= i < |backends| ==> OwnMagic(backends[i])
    ensures r.Ok? <==> backends != []
                       && forall i, j :: 0 <= i < j < |backends| ==> backends[i].language != backends[j].language
    ensures r.Ok? ==> fresh(r.value) && r.value.Valid() && AllUp(r.value.runtimes)
                      && |r.value.runtimes| == |backends|
                      && forall i :: 0 <= i < |backends| ==> r.value.runtimes[i] == Runtime(backends[i], map[], true)
  {
    var runtimes := Build(backends);
    if runtimes.Err? {
      return Err(runtimes.error);
    }
    var shell := new LangShell(runtimes.value);
    r := Ok(shell);
  }

  /** One operation about one session, handed to runtime i. */
  function Sent<D, P>(rs: seq<Runtime<D, P>>, i: nat, op: Op<P>): (seq<Runtime<D, P>>, Result<Reply<P>>)
    requires i < |rs| && Target(op).Some?
  {
    if !rs[i].up then (rs, Err(CLOSED))
    else
      var id := Target(op).value;
      var (cell, reply) := Act(rs[i].b, Lookup(rs[i].store, id), op);
      (rs[i := rs[i].(store := Put(rs[i].store, id, cell))], Ok(reply))
  }

  class LangShell<!D, !P> {
    var runtimes: seq<Runtime<D, P>>

    ghost predicate Valid() reads this {
      && DistinctLanguages(runtimes) && OwnMagics(runtimes)
      && forall i :: 0 <= i < |runtimes| ==> KeyedById(runtimes[i].store)
    }

    constructor (runtimes: seq<Runtime<D, P>>)
      requires DistinctLanguages(runtimes) && OwnMagics(runtimes)
      requires forall i :: 0 <= i < |runtimes| ==> KeyedById(runtimes[i].store)
      ensures Valid() && this.runtimes == runtimes
    {
      this.runtimes := runtimes;
    }

    /** One operation about one session, handed to the runtime of a language. */
    method Delegate(i: nat, op: Op<P>) returns (r: Result<Reply<P>>)
      requires Valid() && i < |runtimes| && !op.List? && Target(op).Some?
      modifies this
      ensures Valid() && |runtimes| == |old(runtimes)| && forall j :: 0 <= j < |runtimes| ==>
                runtimes[j].b == old(runtimes)[j].b && runtimes[j].up == old(runtimes)[j].up
      ensures runtimes[i].up ==>
        var rt, id := old(runtimes)[i], Target(op).value;
        var (cell, reply) := Act(rt.b, Lookup(rt.store, id), op);
        && r == Ok(reply)
        && Updates(old(runtimes), runtimes, rt.b.language, id, cell)
        && runtimes == old(runtimes)[i := rt.(store := Put(rt.store, id, cell))]
      ensures !runtimes[i].up ==> r == Err(CLOSED) && runtimes == old(runtimes)
      ensures (runtimes, r) == Sent(old(runtimes), i, op)
    {
      var rt, id := runtimes[i], Target(op).value;
      if !rt.up {
        return Err(CLOSED);
      }
      var (cell, reply) := Act(rt.b, Lookup(rt.store, id), op);
      ActKeepsId(rt.b, Lookup(rt.store, id), op);
      PutUpdates(runtimes, i, id, cell);
      runtimes := runtimes[i := rt.(store := Put(rt.store, id, cell))];
      r := Ok(reply);
    }

    /** A run changes the session of its language and id as the backend runs it, and nothing else. */
    method RunRequest(request: Request) returns (result: RunResult)
      requires Valid()
      modifies this
      ensures Valid()
      ensures (runtimes, result) == RunAll(old(runtimes), request)
      ensures match IndexOf(old(runtimes), request.language)
        case None => result == ErrorResult(ValidationError, NO_RUNTIME) && runtimes == old(runtimes)
        case Some(i) =>
          i < |old(runtimes)|
          && if !old(runtimes)[i].up then result == ErrorResult(RuntimeError, CLOSED) && runtimes == old(runtimes)
             else
               var stored := At(old(runtimes), request.language, request.sessionId);
               var (cell, reply) := Act(old(runtimes)[i].b, stored, Op<P>.Run(request));
               reply == Ran(result) && Updates(old(runtimes), runtimes, request.language, request.sessionId, cell)
    {
      IndexOfExactly(runtimes, request.language);
      match IndexOf(runtimes, request.language) {
        case None => result := ErrorResult(ValidationError, NO_RUNTIME);
        case Some(i) =>
          AtIndex(runtimes, i, request.sessionId);
          var r := Delegate(i, Op.Run(request));
          result := if r.Ok? then r.value.result else ErrorResult(RuntimeError, CLOSED);
      }
    }

    method CreateSession(id: string, language: Language) returns (r: Result<()>)
      requires Valid()
      modifies this
      ensures Valid()
      ensures !IsValidSessionId(id) ==> r == Err(BAD_ID) && runtimes == old(runtimes)
      ensures IsValidSessionId(id) ==>
        match IndexOf(old(runtimes), language)
        case None => r == Err(NO_RUNTIME) && runtimes == old(runtimes)
        case Some(i) =>
          i < |old(runtimes)|
          && if !old(runtimes)[i].up then r == Err(CLOSED) && runtimes == old(runtimes)
             else
               var (cell, reply) := Act(old(runtimes)[i].b, At(old(runtimes), language, id), Op<P>.Create(id, None));
               reply == Created(r) && Updates(old(runtimes), runtimes, language, id, cell)
    {
      if !IsValidSessionId(id) {
        return Err(BAD_ID);
      }
      IndexOfExactly(runtimes, language);
      match IndexOf(runtimes, language) {
        case None => r := Err(NO_RUNTIME);
        case Some(i) =>
          AtIndex(runtimes, i, id);
          var reply := Delegate(i, Create(id, None));
          r := if reply.Ok? then reply.value.created else Err(reply.error);
      }
    }

    /** The ids of all backends that answer, merged, sorted and without duplicates. */
    method ListSessions() returns (ids: seq<string>)
      ensures Lists(ids, AllIds(runtimes))
    {
      var all: seq<string> := [];
      for i := 0 to |runtimes|
        invariant forall id :: id in all <==> id in AllIds(runtimes[..i])
      {
        assert runtimes[..i+1][..i] == runtimes[..i];
        if runtimes[i].up {
          var listed := SortedKeys(runtimes[i].store.Keys);
          all := all + listed;
        }
      }
      assert runtimes[..|runtimes|] == runtimes;
      var sorted := Sort(all);
      forall id ensures id in sorted <==> id in all {
        assert id in sorted <==> id in multiset(sorted);
        assert id in all <==> id in multiset(all);
      }
      ids := Dedup(sorted);
    }

    /** Removes the id from every backend in turn, up to the first that fails. */
    method DestroySession(id: string) returns (r: Result<bool>)
      requires Valid()
      modifies this
      ensures Valid()
      ensures (runtimes, r) == DestroyAll(old(runtimes), id)
    {
      hide Updates, Sent, Act, Without, UpTo, OwnMagics, DistinctLanguages, KeyedById, IsValidSessionId;
      if !IsValidSessionId(id) {
        return Err(BAD_ID);
      }
      var removed := false;
      var i := 0;
      WithoutNone(runtimes, id);
      while i < |runtimes|
        invariant 0 <= i <= |runtimes| == |old(runtimes)| && Valid()
        invariant runtimes == Without(old(runtimes), id, i)
        invariant forall j :: 0 <= j < i ==> old(runtimes)[j].up
        invariant removed <==> exists j :: 0 <= j < i && id in old(runtimes)[j].store
      {
        WithoutNext(old(runtimes), id, i);
        var reply := Delegate(i, Destroy(id));
        if reply.Err? {
          UpToExactly(old(runtimes), i);
          return Err(reply.error);
        }
        removed := removed || reply.value.removed;
        i := i + 1;
      }
      UpToExactly(old(runtimes), i);
      r := Ok(removed);
    }

    /** The snapshot of the first backend that has the session. */
    method SnapshotSession(id: string) returns (r: Result<Blob<P>>)
      ensures r == if !IsValidSessionId(id) then Err(BAD_ID) else FirstSnapshot(runtimes, id, NO_RUNTIMES)
    {
      if !IsValidSessionId(id) {
        return Err(BAD_ID);
      }
      var notFound: Option<ErrorObject> := None;
      for i := 0 to |runtimes|
        invariant FirstSnapshot(runtimes, id, NO_RUNTIMES)
               == FirstSnapshot(runtimes[i..], id, if notFound.Some? then notFound.value else NO_RUNTIMES)
      {
        assert runtimes[i..][0] == runtimes[i] && runtimes[i..][1..] == runtimes[i+1..];
        var snapped := SnapshotIn(runtimes[i], id);
        if snapped.Ok? || snapped.error.code != "SESSION_NOT_FOUND" {
          return snapped;
        }
        notFound := Some(snapped.error);
      }
      r := Err(if notFound.Some? then notFound.value else NO_RUNTIMES);
    }

    /** Hands a snapshot to the backend that recognises it; a lone backend gets it in any case. */
    method RestoreSession(blob: Blob<P>, asId: Option<string>) returns (r: Result<string>)
      requires Valid()
      modifies this
      ensures Valid()
      ensures (runtimes, r) == RestoreAll(old(runtimes), blob, asId)
    {
      if asId.Some? && !IsValidSessionId(asId.value) {
        return Err(BAD_ID);
      }
      if blob.Garbage? {
        return Err(if |runtimes| == 1 then (if runtimes[0].up then CORRUPT else CLOSED) else NOBODY);
      }
      var op := Restore(blob, asId);
      for i := 0 to |runtimes|
        invariant runtimes == old(runtimes)
        invariant forall j :: 0 <= j < i ==> runtimes[j].b.magic != blob.magic
      {
        if runtimes[i].b.magic == blob.magic {
          RouteExactly(runtimes, blob.magic, i);
          var reply := Delegate(i, op);
          r := if reply.Ok? then reply.value.id else Err(reply.error);
          return;
        }
      }
      RouteExactly(runtimes, blob.magic, |runtimes|);
      if |runtimes| == 1 {
        var reply := Delegate(0, op);
        r := if reply.Ok? then reply.value.id else Err(reply.error);
        return;
      }
      r := Err(NOBODY);
    }
  }

  function RunAll<D, P>(rs: seq<Runtime<D, P>>, request: Request): (seq<Runtime<D, P>>, RunResult) {
    match IndexOf(rs, request.language)
    case None => (rs, ErrorResult(ValidationError, NO_RUNTIME))
    case Some(i) =>
      if i >= |rs| then (rs, ErrorResult(ValidationError, NO_RUNTIME))
      else
        var (rs', r) := Sent(rs, i, Op.Run(request));
        (rs', if r.Ok? then r.value.result else ErrorResult(RuntimeError, CLOSED))
  }

  /** The first runtime that recognises the magic. */
  function Route<D, P>(rs: seq<Runtime<D, P>>, magic: string): (i: nat)
    ensures i <= |rs|
  {
    if rs == [] || rs[0].b.magic == magic then 0 else 1 + Route(rs[1..], magic)
  }

  lemma {:induction false} RouteExactly<D, P>(rs: seq<Runtime<D, P>>, magic: string, i: nat)
    requires i <= |rs| && forall j :: 0 <= j < i ==> rs[j].b.magic != magic
    requires i < |rs| ==> rs[i].b.magic == magic
    ensures Route(rs, magic) == i
  {
    if i > 0 {
      RouteExactly(rs[1..], magic, i - 1);
    }
  }

  function RestoreAt<D, P>(rs: seq<Runtime<D, P>>, i: nat, blob: Blob<P>, asId: Option<string>)
    : (seq<Runtime<D, P>>, Result<string>)
    requires i < |rs| && blob.Envelope?
  {
    var (rs', r) := Sent(rs, i, Restore(blob, asId));
    (rs', if r.Ok? then r.value.id else Err(r.error))
  }

  function RestoreAll<D, P>(rs: seq<Runtime<D, P>>, blob: Blob<P>, asId: Option<string>)
    : (seq<Runtime<D, P>>, Result<string>)
  {
    if asId.Some? && !IsValidSessionId(asId.value) then (rs, Err(BAD_ID))
    else if blob.Garbage? then (rs, Err(if |rs| != 1 then NOBODY else if rs[0].up then CORRUPT else CLOSED))
    else if Route(rs, blob.magic) < |rs| then RestoreAt(rs, Route(rs, blob.magic), blob, asId)
    else if |rs| == 1 then RestoreAt(rs, 0, blob, asId)
    else (rs, Err(NOBODY))
  }

  /** What a restore does: the backend that recognises the snapshot decides, sets one cell on success
      and none on failure. Nobody recognises a foreign snapshot. */
  lemma RestoreExactly<D, P>(rs: seq<Runtime<D, P>>, blob: Blob<P>, asId: Option<string>)
    requires DistinctLanguages(rs) && OwnMagics(rs) && blob.Envelope? && (asId.Some? ==> IsValidSessionId(asId.value))
    ensures var (after, r) := RestoreAll(rs, blob, asId);
      && (r.Ok? ==> Reinstated(rs, after, blob, asId, r.value))
      && (r.Err? ==> after == rs)
      && (forall i :: 0 <= i < |rs| && rs[i].b.magic == blob.magic ==>
            r == if rs[i].up then RestoredId(Reopened(rs[i].b, blob, asId)) else Err(CLOSED))
      && ((forall i :: 0 <= i < |rs| ==> rs[i].b.magic != blob.magic) ==>
            r == Err(if |rs| != 1 then NOBODY else if rs[0].up then CORRUPT else CLOSED))
  {
    if i :| 0 <= i < |rs| && rs[i].b.magic == blob.magic {
      forall j | 0 <= j < |rs| ensures rs[j].b.magic == blob.magic <==> j == i {
        MagicsDiffer(rs, i, j);
      }
      RouteExactly(rs, blob.magic, i);
      RestoreAtExactly(rs, i, blob, asId);
      hide Reopened, RestoreAt;
    } else {
      RouteExactly(rs, blob.magic, |rs|);
      if |rs| == 1 { RestoreAtExactly(rs, 0, blob, asId); }
    }
  }

  lemma RestoreAtExactly<D, P>(rs: seq<Runtime<D, P>>, i: nat, blob: Blob<P>, asId: Option<string>)
    requires DistinctLanguages(rs) && i < |rs| && blob.Envelope?
    ensures var (after, r) := RestoreAt(rs, i, blob, asId);
      && r == (if rs[i].up then RestoredId(Reopened(rs[i].b, blob, asId)) else Err(CLOSED))
      && (r.Err? ==> after == rs)
      && (r.Ok? ==> ReinstatedIn(rs[i].b, rs, after, blob, asId, r.value))
  {
    if rs[i].up {
      RestoreAct(rs[i], Restore(blob, asId));
      var session := Reopened(rs[i].b, blob, asId);
      if session.Ok? {
        PutUpdates(rs, i, session.value.id, Some(session.value));
      }
    }
  }

  /** The backend of the snapshot's magic, and no other, now holds the snapshot's session
      under `id`; nothing else changed. */
  ghost predicate Reinstated<D, P>(before: seq<Runtime<D, P>>, after: seq<Runtime<D, P>>,
                                   blob: Blob<P>, asId: Option<string>, id: string)
    requires blob.Envelope?
  {
    exists i :: 0 <= i < |before| && before[i].b.magic == blob.magic
                && ReinstatedIn(before[i].b, before, after, blob, asId, id)
  }

  ghost predicate ReinstatedIn<D, P>(b: Backend<D, P>, before: seq<Runtime<D, P>>, after: seq<Runtime<D, P>>,
                                     blob: Blob<P>, asId: Option<string>, id: string)
  {
    var session := Reopened(b, blob, asId);
    session.Ok? && session.value.id == id && Updates(before, after, b.language, id, Some(session.value))
  }

  function RestoredId<D>(session: Result<Session<D>>): Result<string> {
    match session
    case Ok(session) => Ok(session.id)
    case Err(error) => Err(error)
  }

  /** A restore sets the session on success and leaves the store alone on failure. */
  lemma RestoreAct<D, P>(rt: Runtime<D, P>, op: Op<P>)
    requires op.Restore? && Target(op).Some?
    ensures var session := Reopened(rt.b, op.blob, op.asId);
      var (cell, reply) := Act(rt.b, Lookup(rt.store, Target(op).value), op);
      && (session.Ok? ==> cell == Some(session.value) && session.value.id == Target(op).value
                          && reply == Restored(Ok(session.value.id)))
      && (session.Err? ==> reply == Restored(Err(session.error)) && Put(rt.store, Target(op).value, cell) == rt.store)
  {}

  function AllIds<D, P>(rs: seq<Runtime<D, P>>): set<string> {
    if rs == [] then {}
    else
      var n := |rs| - 1;
      AllIds(rs[..n]) + (if rs[n].up then rs[n].store.Keys else {})
  }

  lemma {:induction false} AllIdsExactly<D, P>(rs: seq<Runtime<D, P>>, id: string)
    ensures id in AllIds(rs) <==> exists i :: 0 <= i < |rs| && rs[i].up && id in rs[i].store
  {
    if rs != [] {
      var n := |rs| - 1;
      AllIdsExactly(rs[..n], id);
      if id in AllIds(rs[..n]) {
        var i :| 0 <= i < n && rs[..n][i].up && id in rs[..n][i].store;
        assert rs[i].up && id in rs[i].store;
      }
      if i :| 0 <= i < n && rs[i].up && id in rs[i].store {
        assert rs[..n][i].up && id in rs[..n][i].store;
      }
    }
  }

  /** How many backends, from the first, are up. */
  function UpTo<D, P>(rs: seq<Runtime<D, P>>): nat {
    if rs == [] || !rs[0].up then 0 else 1 + UpTo(rs[1..])
  }

  lemma {:induction false} UpToExactly<D, P>(rs: seq<Runtime<D, P>>, i: nat)
    requires i <= |rs| && (forall j :: 0 <= j < i ==> rs[j].up) && (i < |rs| ==> !rs[i].up)
    ensures UpTo(rs) == i
  {
    if i > 0 { UpToExactly(rs[1..], i - 1); }
  }

  /** The first n backends without the id. */
  function Without<D, P>(rs: seq<Runtime<D, P>>, id: string, n: nat): (r: seq<Runtime<D, P>>)
    ensures |r| == |rs|
  {
    seq(|rs|, i requires 0 <= i < |rs| => if i < n then rs[i].(store := rs[i].store - {id}) else rs[i])
  }

  lemma WithoutNone<D, P>(rs: seq<Runtime<D, P>>, id: string)
    ensures Without(rs, id, 0) == rs
  {}

  lemma WithoutNext<D, P>(rs: seq<Runtime<D, P>>, id: string, i: nat)
    requires i < |rs|
    ensures Without(rs, id, i)[i] == rs[i]
    ensures var (rs', r) := Sent(Without(rs, id, i), i, Destroy(id));
      if rs[i].up then rs' == Without(rs, id, i + 1) && r == Ok(Destroyed(id in rs[i].store))
      else rs' == Without(rs, id, i) && r.Err?
  {
    assert Without(rs, id, i)[i] == rs[i];
  }

  function SnapshotIn<D, P>(rt: Runtime<D, P>, id: string): Result<Blob<P>> {
    if !rt.up then Err(CLOSED) else Act(rt.b, Lookup(rt.store, id), Snapshot(id)).1.blob
  }

  /** The first answer that is not "not found"; `missing` when there is none. */
  function FirstSnapshot<D, P>(rs: seq<Runtime<D, P>>, id: string, missing: ErrorObject): Result<Blob<P>> {
    if rs == [] then Err(missing)
    else
      var snapped := SnapshotIn(rs[0], id);
      if snapped.Ok? || snapped.error.code != "SESSION_NOT_FOUND" then snapped
      else FirstSnapshot(rs[1..], id, snapped.error)
  }

  // ----- What the facade promises -----------------------------------------------------

  /** With every backend up, the listing is the strictly ascending union of the backends' ids. */
  lemma ListingIsUnion<D, P>(rs: seq<Runtime<D, P>>, ids: seq<string>, id: string)
    requires DistinctLanguages(rs) && AllUp(rs) && Lists(ids, AllIds(rs))
    ensures id in ids <==> exists l: Language :: At(rs, l, id).Some?
  {
    AllIdsExactly(rs, id);
    if i :| 0 <= i < |rs| && rs[i].up && id in rs[i].store {
      AtIndex(rs, i, id);
      assert At(rs, rs[i].b.language, id).Some?;
    }
    if l: Language :| At(rs, l, id).Some? {
      AtSomewhere(rs, l, id);
    }
  }

  lemma {:induction false} AtSomewhere<D, P>(rs: seq<Runtime<D, P>>, language: Language, id: string)
    requires At(rs, language, id).Some?
    ensures exists i :: 0 <= i < |rs| && id in rs[i].store
  {
    if rs[0].b.language == language {
      assert id in rs[0].store;
    } else {
      AtSomewhere(rs[1..], language, id);
      var i :| 0 <= i < |rs[1..]| && id in rs[1..][i].store;
      assert id in rs[i+1].store;
    }
  }

  /** With every backend up, a destroyed id is gone from every language and nothing else changes. */
  lemma DestroyIsTotal<D, P>(rs: seq<Runtime<D, P>>, id: string, l: Language, k: string)
    requires DistinctLanguages(rs) && AllUp(rs)
    ensures UpTo(rs) == |rs|
    ensures At(Without(rs, id, |rs|), l, k) == if k == id then None else At(rs, l, k)
  {
    UpToExactly(rs, |rs|);
    var rs' := Without(rs, id, |rs|);
    assert DistinctLanguages(rs');
    if i :| 0 <= i < |rs| && rs[i].b.language == l {
      AtIndex(rs, i, k);
      AtIndex(rs', i, k);
    } else {
      AtNowhere(rs, l, k);
      AtNowhere(rs', l, k);
    }
  }

  /** A snapshot that the facade returns was taken by some backend. */
  lemma {:induction false} SnapshotHasMaker<D, P>(rs: seq<Runtime<D, P>>, id: string, missing: ErrorObject)
    returns (i: nat)
    requires FirstSnapshot(rs, id, missing).Ok?
    ensures i < |rs| && SnapshotIn(rs[i], id) == FirstSnapshot(rs, id, missing)
  {
    var snapped := SnapshotIn(rs[0], id);
    if snapped.Ok? {
      i := 0;
    } else {
      i := SnapshotHasMaker(rs[1..], id, snapped.error);
      i := i + 1;
    }
  }

  /** The session that a snapshot stands for, reopened under an id. */
  function Reloaded<D, P>(b: Backend<D, P>, session: Session<D>, id: string): Result<Session<D>> {
    match b.dump(session.state)
    case Err(error) => Err(error)
    case Ok(payload) =>
      match b.load(id, session.limits, payload)
      case Err(error) => Err(error)
      case Ok(state) => Ok(Session(id, session.limits, state))
  }

  lemma SnapshotReopens<D, P>(rt: Runtime<D, P>, id: string, asId: Option<string>)
    requires KeyedById(rt.store) && SnapshotIn(rt, id).Ok?
    ensures id in rt.store && SnapshotIn(rt, id).value.Envelope? && SnapshotIn(rt, id).value.magic == rt.b.magic
    ensures Reopened(rt.b, SnapshotIn(rt, id).value, asId)
         == Reloaded(rt.b, rt.store[id], if asId.Some? then asId.value else id)
  {}

  /** Snapshot and restore through the facade, now or later: any snapshot the facade returned, handed
      to a facade over the same backends, reaches the backend that made it. That backend's language
      gets the session back under the chosen id, and no other cell changes; or its engine refuses the
      dump, and nothing changes. */
  lemma RestoreIsRouted<D, P>(rs: seq<Runtime<D, P>>, id: string, later: seq<Runtime<D, P>>, asId: Option<string>)
    returns (i: nat)
    requires forall j :: 0 <= j < |rs| ==> KeyedById(rs[j].store)
    requires FirstSnapshot(rs, id, NO_RUNTIMES).Ok?
    requires DistinctLanguages(later) && OwnMagics(later) && AllUp(later)
    requires |later| == |rs| && forall j :: 0 <= j < |rs| ==> later[j].b == rs[j].b
    requires asId.Some? ==> IsValidSessionId(asId.value)
    ensures i < |rs| && id in rs[i].store
    ensures var newId := if asId.Some? then asId.value else id;
      var (after, r) := RestoreAll(later, FirstSnapshot(rs, id, NO_RUNTIMES).value, asId);
      match Reloaded(rs[i].b, rs[i].store[id], newId)
      case Ok(session) => r == Ok(newId) && Updates(later, after, rs[i].b.language, newId, Some(session))
      case Err(error) => r == Err(error) && after == later
  {
    i := SnapshotHasMaker(rs, id, NO_RUNTIMES);
    var blob := FirstSnapshot(rs, id, NO_RUNTIMES).value;
    SnapshotReopens(rs[i], id, asId);
    forall j | 0 <= j < i ensures later[j].b.magic != blob.magic {
      MagicsDiffer(later, i, j);
    }
    RouteExactly(later, blob.magic, i);
    RestoreAtExactly(later, i, blob, asId);
    hide Reopened, RestoreAt, FirstSnapshot, SnapshotIn, Updates;
  }

  /** A session id in two languages: the facade snapshots the backend registered first. */
  lemma {:induction false} FirstBackendWins<D, P>(rs: seq<Runtime<D, P>>, id: string, i: nat, missing: ErrorObject)
    requires i < |rs| && AllUp(rs) && id in rs[i].store && rs[i].b.dump(rs[i].store[id].state).Ok?
    requires forall j :: 0 <= j < i ==> id !in rs[j].store
    ensures FirstSnapshot(rs, id, missing) == Wrapped(rs[i].b, rs[i].store[id])
  {
    if i > 0 {
      assert rs[1..][i-1] == rs[i];
      FirstBackendWins(rs[1..], id, i - 1, NOT_FOUND);
    }
  }

  /** Backend i says something other than that it does not have the session. */
  predicate Answers<D, P>(rs: seq<Runtime<D, P>>, id: string, i: nat)
    requires i < |rs|
  {
    SnapshotIn(rs[i], id).Ok? || SnapshotIn(rs[i], id).error.code != "SESSION_NOT_FOUND"
  }

  /** The facade gives the first such answer, success or failure. */
  lemma {:induction false} FirstAnswerExactly<D, P>(rs: seq<Runtime<D, P>>, id: string, missing: ErrorObject, i: nat)
    requires i < |rs| && Answers(rs, id, i) && forall j :: 0 <= j < i ==> !Answers(rs, id, j)
    ensures FirstSnapshot(rs, id, missing) == SnapshotIn(rs[i], id)
  {
    if i > 0 {
      assert !Answers(rs, id, 0);
      forall j | 0 <= j < i - 1 ensures !Answers(rs[1..], id, j) { assert !Answers(rs, id, j + 1); }
      FirstAnswerExactly(rs[1..], id, SnapshotIn(rs[0], id).error, i - 1);
    }
  }

  /** If there is none, the last backend's "not found"; without any backend, an error of its own. */
  lemma {:induction false} NoAnswerExactly<D, P>(rs: seq<Runtime<D, P>>, id: string, missing: ErrorObject)
    requires forall j :: 0 <= j < |rs| ==> !Answers(rs, id, j)
    ensures FirstSnapshot(rs, id, missing) == if rs == [] then Err(missing) else SnapshotIn(rs[|rs|-1], id)
  {
    if rs != [] {
      assert !Answers(rs, id, 0);
      forall j | 0 <= j < |rs| - 1 ensures !Answers(rs[1..], id, j) { assert !Answers(rs, id, j + 1); }
      NoAnswerExactly(rs[1..], id, SnapshotIn(rs[0], id).error);
    }
  }

  /** What a single backend answers: an error when it is down, "not found" exactly when it is up and does
      not have the session, unless its engine says so of a session it has. */
  lemma BackendAnswers<D, P>(rt: Runtime<D, P>, id: string)
    requires KeyedById(rt.store)
    ensures !rt.up ==> SnapshotIn(rt, id) == Err(CLOSED) && CLOSED.code != "SESSION_NOT_FOUND"
    ensures rt.up && id !in rt.store ==> SnapshotIn(rt, id) == Err(NOT_FOUND) && NOT_FOUND.code == "SESSION_NOT_FOUND"
    ensures rt.up && id in rt.store ==> SnapshotIn(rt, id) == Wrapped(rt.b, rt.store[id])
  {
    assert CLOSED.code[0] == 'R' && NOT_FOUND.code[0] == 'S';
  }

  /** A destruction that meets a backend that is down has taken the id from those before it, and from no
      others, and says so. */
  lemma DestroyStopsExactly<D, P>(rs: seq<Runtime<D, P>>, n: nat, id: string, i: nat, k: string)
    requires DistinctLanguages(rs) && n < |rs| && !rs[n].up && (forall j :: 0 <= j < n ==> rs[j].up)
    requires IsValidSessionId(id) && i < |rs|
    ensures var (after, r) := DestroyAll(rs, id);
      && r == Err(CLOSED)
      && At(after, rs[i].b.language, k) == if k == id && i < n then None else At(rs, rs[i].b.language, k)
  {
    UpToExactly(rs, n);
    var after := Without(rs, id, n);
    assert DistinctLanguages(after);
    AtIndex(rs, i, k);
    AtIndex(after, i, k);
  }

  // ----- Ids that only a run accepts ----------------------------------------------------

  ghost function DestroyAll<D, P>(rs: seq<Runtime<D, P>>, id: string): (seq<Runtime<D, P>>, Result<bool>) {
    if !IsValidSessionId(id) then (rs, Err(BAD_ID))
    else
      (Without(rs, id, UpTo(rs)),
       if UpTo(rs) < |rs| then Err(CLOSED) else Ok(exists i :: 0 <= i < |rs| && id in rs[i].store))
  }

  /** Runs accept any session id, destruction does not: a session that a run has opened is listed,
      and destroying it takes it off the list if and only if its id is valid. */
  lemma OrphanExactly<D, P>(rs: seq<Runtime<D, P>>, request: Request, i: nat)
    requires DistinctLanguages(rs) && AllUp(rs) && i < |rs| && rs[i].b.language == request.language
    requires Rejected(rs[i].b, request).None?
    requires Opened(rs[i].b, Lookup(rs[i].store, request.sessionId), request).Ok?
    ensures var id := request.sessionId;
      var listed := RunAll(rs, request).0;
      && id in AllIds(listed)
      && (id !in AllIds(DestroyAll(listed, id).0) <==> IsValidSessionId(id))
      && DestroyAll(listed, id).1 == if IsValidSessionId(id) then Ok(true) else Err(BAD_ID)
  {
    var id := request.sessionId;
    IndexOfExactly(rs, request.language);
    var listed := RunAll(rs, request).0;
    RunOpens(rs, request, i);
    AllIdsExactly(listed, id);
    if IsValidSessionId(id) {
      UpToExactly(listed, |listed|);
      AllIdsExactly(DestroyAll(listed, id).0, id);
    }
  }

  lemma RunOpens<D, P>(rs: seq<Runtime<D, P>>, request: Request, i: nat)
    requires DistinctLanguages(rs) && AllUp(rs) && i < |rs| && rs[i].b.language == request.language
    requires Rejected(rs[i].b, request).None?
    requires Opened(rs[i].b, Lookup(rs[i].store, request.sessionId), request).Ok?
    ensures var listed := RunAll(rs, request).0;
      |listed| == |rs| && AllUp(listed) && request.sessionId in listed[i].store
  {
    IndexOfExactly(rs, request.language);
    hide Rejected, Opened, IsValidSessionId;
  }

  /** A backend whose sessions have no state. */
  function Stateless(defaults: Limits): Backend<(), ()> {
    Backend(Python, MONTY_MAGIC, "d", defaults,
            (_, _) => Ok(()),
            (_, _, _) => ((), RunResult(StatusOk, None, None, [], false, [])),
            _ => ErrorResult(ValidationError, NOT_FOUND),
            _ => Ok(()),
            (_, _, _) => Ok(()))
  }

  /** A run opens the session "a b" on an empty facade; it is listed and cannot be destroyed. */
  lemma OrphanExample(defaults: Limits, code: string, choices: Choices)
    ensures var rs := [Runtime(Stateless(defaults), map[], true)];
      var listed := RunAll(rs, Request("a b", Python, code, None, None, false, choices)).0;
      && DistinctLanguages(rs) && OwnMagics(rs)
      && "a b" in AllIds(listed)
      && DestroyAll(listed, "a b") == (listed, Err(BAD_ID))
  {
    var rs := [Runtime(Stateless(defaults), map[], true)];
    var request := Request("a b", Python, code, None, None, false, choices);
    assert !IsValidSessionId("a b") by { assert "a b"[1] == ' '; }
    OrphanExactly(rs, request, 0);
  }
}
