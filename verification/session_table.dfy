/** The mutable session map of a backend. The Python backend reaches it through a mutex, which it
    releases while a run executes; the TypeScript worker owns it. Every operation is proved to be
    one step of the serial specification. */
module Table {
  import opened Core
  import opened Ordering
  import opened Sessions

  class SessionTable<!D, !P> {
    const b: Backend<D, P>
    var sessions: Store<D>

    constructor (b: Backend<D, P>)
      ensures this.b == b && sessions == map[]
    {
      this.b := b;
      sessions := map[];
    }

    method CreateSession(id: string, limits: Option<Limits>) returns (r: Result<()>)
      modifies this
      ensures (sessions, Created(r)) == Serial(b, old(sessions), Create(id, limits))
    {
      if id !in sessions {
        var limits := if limits.Some? then limits.value else b.defaults;
        var state := b.create(id, limits);
        if state.Err? {
          assert sessions == sessions - {id};
          return Err(state.error);
        }
        sessions := sessions[id := Session(id, limits, state.value)];
      } else {
        assert sessions == sessions[id := sessions[id]];
      }
      r := Ok(());
    }

    /** Takes the session of a run out of the table, or makes a new one. */
    method Checkout(request: Request) returns (r: Result<Session<D>>)
      modifies this
      ensures r == Opened(b, Lookup(old(sessions), request.sessionId), request)
      ensures sessions == if r.Ok? then old(sessions) - {request.sessionId} else old(sessions)
    {
      var id, limits := request.sessionId, EffectiveLimits(b.defaults, request);
      if id in sessions {
        r := Ok(sessions[id].(limits := limits));
        sessions := sessions - {id};
      } else {
        var state := b.create(id, limits);
        if state.Err? {
          return Err(state.error);
        }
        r := Ok(Session(id, limits, state.value));
        assert sessions == sessions - {id};
      }
    }

    /** Puts a session back after its run. */
    method Checkin(session: Session<D>)
      modifies this
      ensures sessions == old(sessions)[session.id := session]
    {
      sessions := sessions[session.id := session];
    }

    /** A run that nothing interrupts: check out, execute, check in. It amounts to an update in place. */
    method RunRequest(request: Request) returns (r: RunResult)
      requires KeyedById(sessions)
      modifies this
      ensures KeyedById(sessions)
      ensures (sessions, Ran(r)) == Serial(b, old(sessions), Run(request))
    {
      ghost var before := sessions;
      Unchanged(before, request.sessionId);
      SerialKeepsKeys(b, before, Op.Run(request));
      if request.language != b.language {
        return ErrorResult(ValidationError, WRONG_LANGUAGE);
      }
      if request.validateOnly {
        return b.validate(request);
      }
      var session := Checkout(request);
      if session.Err? {
        return ErrorResult(RuntimeError, session.error);
      }
      var (session', result) := Executed(b, session.value, request);
      Checkin(session');
      assert sessions == before[request.sessionId := session'];
      r := result;
    }

    method DestroySession(id: string) returns (removed: bool)
      modifies this
      ensures (sessions, Destroyed(removed)) == Serial(b, old(sessions), Destroy(id))
    {
      removed := id in sessions;
      sessions := sessions - {id};
    }

    method ListSessions() returns (ids: seq<string>)
      ensures (sessions, Listed(ids)) == Serial(b, sessions, List)
    {
      ids := SortedKeys(sessions.Keys);
      ListingIsUnique(ids, Listing(sessions.Keys), sessions.Keys);
    }

    method SnapshotSession(id: string) returns (r: Result<Blob<P>>)
      ensures (sessions, Snapped(r)) == Serial(b, sessions, Snapshot(id))
    {
      Unchanged(sessions, id);
      if id !in sessions {
        return Err(NOT_FOUND);
      }
      r := Wrapped(b, sessions[id]);
    }

    method RestoreSession(blob: Blob<P>, asId: Option<string>) returns (r: Result<string>)
      modifies this
      ensures (sessions, Restored(r)) == Serial(b, old(sessions), Restore(blob, asId))
    {
      var session := Reopened(b, blob, asId);
      if session.Err? {
        if blob.Envelope? { Unchanged(sessions, Target(Restore(blob, asId)).value); }
        return Err(session.error);
      }
      sessions := sessions[session.value.id := session.value];
      r := Ok(session.value.id);
    }

    /** The dispatch of one command. */
    method Handle(op: Op<P>) returns (reply: Reply<P>)
      requires KeyedById(sessions)
      modifies this
      ensures KeyedById(sessions)
      ensures (sessions, reply) == Serial(b, old(sessions), op)
    {
      SerialKeepsKeys(b, sessions, op);
      match op
      case Create(id, limits) => var r := CreateSession(id, limits); reply := Created(r);
      case Run(request) => var r := RunRequest(request); reply := Ran(r);
      case Destroy(id) => var r := DestroySession(id); reply := Destroyed(r);
      case List => var r := ListSessions(); reply := Listed(r);
      case Snapshot(id) => var r := SnapshotSession(id); reply := Snapped(r);
      case Restore(blob, asId) => var r := RestoreSession(blob, asId); reply := Restored(r);
    }
  }

  lemma Unchanged<D>(m: Store<D>, id: string)
    ensures Put(m, id, Lookup(m, id)) == m
  {}
}
