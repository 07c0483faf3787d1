/** Concurrent use of the Python backend: a run takes its session out of the table, executes
    with the mutex released, and puts the session back. Every other operation is atomic. */
module MontyStore {
  import opened Core
  import opened Sessions

  /** A run between check-out and check-in. `origin` is history: what the table held before. */
  datatype Flight<+D> = Flight(
    request: Request,
    origin: Option<Session<D>>,
    session: Session<D>,
    result: Option<RunResult>)

  /** `ops` and `replies` are history: the finished operations in the order they took effect. */
  datatype System<+D, +P> = System(
    store: Store<D>,
    flights: map<nat, Flight<D>>,
    ops: seq<Op<P>>,
    replies: seq<Reply<P>>)

  /** `Cancel`: the caller drops the run before it has put its session back. */
  datatype Step<+P> =
    | Atomic(op: Op<P>)
    | CheckOut(f: nat, request: Request)
    | Execute(f: nat)
    | CheckIn(f: nat)
    | Cancel(f: nat)

  /** A run that really reaches a session is not atomic. */
  predicate Possible<D, P>(b: Backend<D, P>, s: System<D, P>, step: Step<P>) {
    match step
    case Atomic(op) => op.Run? ==> Rejected(b, op.request).Some?
    case CheckOut(f, request) =>
      f !in s.flights && Rejected(b, request).None? && Opened(b, Lookup(s.store, request.sessionId), request).Ok?
    case Execute(f) => f in s.flights && s.flights[f].result.None?
    case CheckIn(f) => f in s.flights && s.flights[f].result.Some?
    case Cancel(f) => f in s.flights
  }

  ghost function Apply<D, P>(b: Backend<D, P>, s: System<D, P>, step: Step<P>): System<D, P>
    requires Possible(b, s, step)
  {
    match step
    case Atomic(op) =>
      var (store, reply) := Serial(b, s.store, op);
      s.(store := store, ops := s.ops + [op], replies := s.replies + [reply])
    case CheckOut(f, request) =>
      var origin := Lookup(s.store, request.sessionId);
      s.(store := s.store - {request.sessionId},
         flights := s.flights[f := Flight(request, origin, Opened(b, origin, request).value, None)])
    case Execute(f) =>
      var (session, result) := Executed(b, s.flights[f].session, s.flights[f].request);
      s.(flights := s.flights[f := s.flights[f].(session := session, result := Some(result))])
    case CheckIn(f) =>
      var flight := s.flights[f];
      s.(store := s.store[flight.request.sessionId := flight.session],
         flights := s.flights - {f},
         ops := s.ops + [Run(flight.request)],
         replies := s.replies + [Ran(flight.result.value)])
    case Cancel(f) =>
      // The session goes with the run. In the history this is a destruction that nobody asked for.
      var flight := s.flights[f];
      s.(flights := s.flights - {f},
         ops := s.ops + [Destroy(flight.request.sessionId)],
         replies := s.replies + [Destroyed(flight.origin.Some?)])
  }

  ghost predicate IsRun<D, P>(b: Backend<D, P>, states: seq<System<D, P>>, steps: seq<Step<P>>) {
    && |states| == |steps| + 1
    && states[0] == System(map[], map[], [], [])
    && forall i :: 0 <= i < |steps| ==>
         Possible(b, states[i], steps[i]) && states[i+1] == Apply(b, states[i], steps[i])
  }

  // ----- In every interleaving ---------------------------------------------------

  /** Sessions are stored, and in flight, under their own ids. */
  ghost predicate Keyed<D, P>(s: System<D, P>) {
    && KeyedById(s.store)
    && forall f :: f in s.flights ==> s.flights[f].session.id == s.flights[f].request.sessionId
  }

  lemma {:induction false} AlwaysKeyed<D, P>(b: Backend<D, P>, states: seq<System<D, P>>, steps: seq<Step<P>>, i: nat)
    requires IsRun(b, states, steps) && i < |states|
    ensures Keyed(states[i])
  {
    if i > 0 {
      AlwaysKeyed(b, states, steps, i - 1);
      if steps[i-1].Atomic? {
        SerialKeepsKeys(b, states[i-1].store, steps[i-1].op);
      }
    }
  }

  /** Whatever happened meanwhile, a run puts back exactly one session, its own, under its own key. */
  lemma CheckInPutsBack<D, P>(b: Backend<D, P>, states: seq<System<D, P>>, steps: seq<Step<P>>, i: nat)
    requires IsRun(b, states, steps) && i < |steps| && steps[i].CheckIn?
    ensures var s, s' := states[i], states[i+1];
      var flight := s.flights[steps[i].f];
      && flight.session.id == flight.request.sessionId
      && s'.store == s.store[flight.session.id := flight.session]
      && s'.flights.Keys == s.flights.Keys - {steps[i].f}
  {
    AlwaysKeyed(b, states, steps, i);
  }

  // ----- Without overlap on one id --------------------------------------------------

  /** Flight f is a run of session `id`. */
  predicate On<D, P>(s: System<D, P>, f: nat, id: string) {
    f in s.flights && s.flights[f].request.sessionId == id
  }

  ghost predicate Busy<D, P>(s: System<D, P>, id: string) {
    exists f :: On(s, f, id)
  }

  /** The step does not touch session `id` while it is in flight. */
  ghost predicate NoOverlap<D, P>(s: System<D, P>, step: Step<P>, id: string) {
    match step
    case Atomic(op) => Target(op) == Some(id) ==> !Busy(s, id)
    case CheckOut(_, request) => request.sessionId == id ==> !Busy(s, id)
    case _ => true
  }

  ghost function Cell<D, P>(b: Backend<D, P>, ops: seq<Op<P>>, id: string): Option<Session<D>> {
    Lookup(SerialAll(b, map[], ops), id)
  }

  /** The table agrees with the serial store about `id`, except that a session in flight is away. */
  ghost predicate Mirrors<D, P>(b: Backend<D, P>, s: System<D, P>, id: string) {
    var cell := Cell(b, s.ops, id);
    && (!Busy(s, id) ==> Lookup(s.store, id) == cell)
    && (forall f :: On(s, f, id) ==> id !in s.store && FlightMirrors(b, cell, s.flights[f]))
    && (forall f, g :: On(s, f, id) && On(s, g, id) ==> f == g)
  }

  ghost predicate FlightMirrors<D, P>(b: Backend<D, P>, cell: Option<Session<D>>, flight: Flight<D>) {
    && Rejected(b, flight.request).None?
    && flight.origin == cell
    && Opened(b, cell, flight.request).Ok?
    && (var entry := Opened(b, cell, flight.request).value;
        if flight.result.None? then flight.session == entry
        else (flight.session, flight.result.value) == Executed(b, entry, flight.request))
  }

  lemma SerialCell<D, P>(b: Backend<D, P>, m: Store<D>, op: Op<P>, id: string)
    ensures Lookup(Serial(b, m, op).0, id)
         == if Target(op) == Some(id) then Act(b, Lookup(m, id), op).0 else Lookup(m, id)
    ensures Target(op) == Some(id) ==> Serial(b, m, op).1 == Act(b, Lookup(m, id), op).1
  {
    hide Act;
  }

  /** One more operation changes the cell of its own session, as that session's operation alone would. */
  lemma CellSnoc<D, P>(b: Backend<D, P>, ops: seq<Op<P>>, op: Op<P>, id: string)
    ensures Cell(b, ops + [op], id)
         == if Target(op) == Some(id) then Act(b, Cell(b, ops, id), op).0 else Cell(b, ops, id)
    ensures Target(op) == Some(id) ==> SerialReply(b, ops, op, Act(b, Cell(b, ops, id), op).1)
  {
    hide Act, Serial;
    assert (ops + [op])[..|ops|] == ops;
    SerialCell(b, SerialAll(b, map[], ops), op, id);
  }

  /** The reply to the operation is the serial one. */
  ghost predicate SerialReply<D, P>(b: Backend<D, P>, ops: seq<Op<P>>, op: Op<P>, reply: Reply<P>) {
    reply == Serial(b, SerialAll(b, map[], ops), op).1
  }

  /** A step that leaves the session, its flights and its operations alone. */
  lemma Untouched<D, P>(b: Backend<D, P>, s: System<D, P>, s': System<D, P>, id: string)
    requires Mirrors(b, s, id)
    requires Lookup(s'.store, id) == Lookup(s.store, id) && Cell(b, s'.ops, id) == Cell(b, s.ops, id)
    requires forall f :: (On(s', f, id) <==> On(s, f, id)) && (On(s, f, id) ==> s'.flights[f] == s.flights[f])
    ensures Mirrors(b, s', id)
  {
    hide Cell, FlightMirrors;
    assert Busy(s', id) <==> Busy(s, id);
    assert forall f :: On(s', f, id) ==> On(s, f, id);
  }

  lemma AtomicMirrors<D, P>(b: Backend<D, P>, s: System<D, P>, op: Op<P>, id: string)
    requires Possible(b, s, Atomic(op)) && Mirrors(b, s, id) && NoOverlap(s, Atomic(op), id)
    ensures Mirrors(b, Apply(b, s, Atomic(op)), id)
    ensures Target(op) == Some(id) ==> SerialReply(b, s.ops, op, Serial(b, s.store, op).1)
  {
    hide Serial, Act, FlightMirrors, Cell, SerialReply;
    var s' := Apply(b, s, Atomic(op));
    SerialCell(b, s.store, op, id);
    CellSnoc(b, s.ops, op, id);
    assert forall f :: On(s', f, id) <==> On(s, f, id);
    if Target(op) != Some(id) {
      Untouched(b, s, s', id);
    }
  }

  lemma CheckOutMirrors<D, P>(b: Backend<D, P>, s: System<D, P>, f: nat, request: Request, id: string)
    requires Possible(b, s, CheckOut(f, request)) && Mirrors(b, s, id) && NoOverlap(s, CheckOut(f, request), id)
    ensures Mirrors(b, Apply(b, s, CheckOut(f, request)), id)
  {
    hide Cell, Executed, Opened, Rejected;
    var s' := Apply(b, s, CheckOut(f, request));
    if request.sessionId == id {
      assert On(s', f, id);
      assert forall g :: On(s', g, id) ==> g == f || On(s, g, id);
    } else {
      assert forall g :: On(s', g, id) <==> On(s, g, id);
      Untouched(b, s, s', id);
    }
  }

  lemma ExecuteMirrors<D, P>(b: Backend<D, P>, s: System<D, P>, f: nat, id: string)
    requires Possible(b, s, Execute(f)) && Mirrors(b, s, id)
    ensures Mirrors(b, Apply(b, s, Execute(f)), id)
  {
    hide Cell, Executed, Opened, Rejected;
    var s' := Apply(b, s, Execute(f));
    assert forall g :: On(s', g, id) <==> On(s, g, id);
    assert Busy(s', id) <==> Busy(s, id);
    if !On(s, f, id) {
      Untouched(b, s, s', id);
    }
  }

  lemma FlightActs<D, P>(b: Backend<D, P>, cell: Option<Session<D>>, flight: Flight<D>)
    requires FlightMirrors(b, cell, flight) && flight.result.Some?
    ensures Act(b, cell, Op.Run(flight.request)) == (Some(flight.session), Ran(flight.result.value))
  {}

  lemma CheckInMirrors<D, P>(b: Backend<D, P>, s: System<D, P>, f: nat, id: string)
    requires Possible(b, s, CheckIn(f)) && Mirrors(b, s, id)
    ensures Mirrors(b, Apply(b, s, CheckIn(f)), id)
    ensures On(s, f, id) ==> SerialReply(b, s.ops, Op.Run(s.flights[f].request), Ran(s.flights[f].result.value))
  {
    hide Cell, SerialReply, Act, FlightMirrors;
    var s' := Apply(b, s, CheckIn(f));
    CellSnoc(b, s.ops, Op.Run(s.flights[f].request), id);
    assert forall g :: On(s', g, id) <==> g != f && On(s, g, id);
    if On(s, f, id) {
      FlightActs(b, Cell(b, s.ops, id), s.flights[f]);
    } else {
      Untouched(b, s, s', id);
    }
  }

  lemma CancelMirrors<D, P>(b: Backend<D, P>, s: System<D, P>, f: nat, id: string)
    requires Possible(b, s, Cancel(f)) && Mirrors(b, s, id)
    ensures Mirrors(b, Apply(b, s, Cancel(f)), id)
    ensures On(s, f, id) ==> SerialReply(b, s.ops, Destroy(id), Destroyed(s.flights[f].origin.Some?))
  {
    hide Cell, SerialReply;
    var s' := Apply(b, s, Cancel(f));
    CellSnoc(b, s.ops, Destroy(s.flights[f].request.sessionId), id);
    assert forall g :: On(s', g, id) <==> g != f && On(s, g, id);
    if !On(s, f, id) {
      Untouched(b, s, s', id);
    }
  }

  /** Every answer about `id` so far is the serial one. */
  ghost predicate SerialAnswers<D, P>(b: Backend<D, P>, s: System<D, P>, id: string) {
    |s.replies| == |s.ops| && forall k :: 0 <= k < |s.ops| && Target(s.ops[k]) == Some(id) ==>
      SerialReply(b, s.ops[..k], s.ops[k], s.replies[k])
  }

  lemma AnswersExtend<D, P>(b: Backend<D, P>, s: System<D, P>, s': System<D, P>, op: Op<P>, reply: Reply<P>, id: string)
    requires SerialAnswers(b, s, id) && (Target(op) == Some(id) ==> SerialReply(b, s.ops, op, reply))
    requires s'.ops == s.ops + [op] && s'.replies == s.replies + [reply]
    ensures SerialAnswers(b, s', id)
  {
    hide SerialReply, Target;
    forall k | 0 <= k < |s'.ops| && Target(s'.ops[k]) == Some(id)
      ensures SerialReply(b, s'.ops[..k], s'.ops[k], s'.replies[k])
    {
      assert s'.ops[..k] == s.ops[..k];
      assert s.ops[..|s.ops|] == s.ops;
    }
  }

  lemma StepMirrors<D, P>(b: Backend<D, P>, s: System<D, P>, step: Step<P>, id: string)
    requires Possible(b, s, step) && NoOverlap(s, step, id) && Mirrors(b, s, id) && SerialAnswers(b, s, id)
    ensures Mirrors(b, Apply(b, s, step), id) && SerialAnswers(b, Apply(b, s, step), id)
  {
    hide Mirrors, SerialReply, NoOverlap, Serial;
    var s' := Apply(b, s, step);
    match step
    case Atomic(op) =>
      AtomicMirrors(b, s, op, id);
      AnswersExtend(b, s, s', op, Serial(b, s.store, op).1, id);
    case CheckOut(f, request) => CheckOutMirrors(b, s, f, request, id);
    case Execute(f) => ExecuteMirrors(b, s, f, id);
    case CheckIn(f) =>
      CheckInMirrors(b, s, f, id);
      AnswersExtend(b, s, s', Op.Run(s.flights[f].request), Ran(s.flights[f].result.value), id);
    case Cancel(f) =>
      CancelMirrors(b, s, f, id);
      AnswersExtend(b, s, s', Destroy(s.flights[f].request.sessionId), Destroyed(s.flights[f].origin.Some?), id);
  }

  lemma {:induction false} RunMirrors<D, P>(b: Backend<D, P>, states: seq<System<D, P>>, steps: seq<Step<P>>,
                                            i: nat, id: string)
    requires IsRun(b, states, steps) && i < |states|
    requires forall j :: 0 <= j < i ==> NoOverlap(states[j], steps[j], id)
    ensures Mirrors(b, states[i], id) && SerialAnswers(b, states[i], id)
  {
    if i > 0 {
      hide Mirrors, SerialAnswers, Apply, Possible;
      RunMirrors(b, states, steps, i - 1, id);
      StepMirrors(b, states[i-1], steps[i-1], id);
    }
  }

  /** Session isolation: if operations on one id do not overlap, then in every interleaving, whatever
      happens to the others, each answer is what running only that session's operations, one after
      another, would answer, and so is the state of the session when it is not in flight. */
  lemma SessionsAreIsolated<D, P>(b: Backend<D, P>, states: seq<System<D, P>>, steps: seq<Step<P>>, i: nat, id: string)
    requires IsRun(b, states, steps) && i < |states|
    requires forall j :: 0 <= j < i ==> NoOverlap(states[j], steps[j], id)
    ensures var s := states[i];
      && (!Busy(s, id) ==> Lookup(s.store, id) == Lookup(SerialAll(b, map[], About(s.ops, id)), id))
      && |s.replies| == |s.ops|
      && (forall k :: 0 <= k < |s.ops| && Target(s.ops[k]) == Some(id) ==>
            s.replies[k] == Serial(b, SerialAll(b, map[], About(s.ops[..k], id)), s.ops[k]).1)
  {
    RunMirrors(b, states, steps, i, id);
    var s := states[i];
    Isolation(b, map[], s.ops, id);
    forall k | 0 <= k < |s.ops| && Target(s.ops[k]) == Some(id)
      ensures s.replies[k] == Serial(b, SerialAll(b, map[], About(s.ops[..k], id)), s.ops[k]).1
    {
      AnswerIsolation(b, map[], s.ops[..k], s.ops[k], id);
      assert SerialReply(b, s.ops[..k], s.ops[k], s.replies[k]);
    }
  }

  /** A listing shows exactly the sessions that are not in flight. */
  lemma ListOmitsBusy<D, P>(b: Backend<D, P>, states: seq<System<D, P>>, steps: seq<Step<P>>, i: nat, id: string)
    requires IsRun(b, states, steps) && i < |states|
    requires forall j :: 0 <= j < i ==> NoOverlap(states[j], steps[j], id)
    ensures id in Serial(b, states[i].store, List).1.ids
       <==> id in SerialAll(b, map[], states[i].ops) && !Busy(states[i], id)
  {
    RunMirrors(b, states, steps, i, id);
  }

  /** What becomes of the session of a run that does not overlap with others: once the run is over,
      the session is stored if and only if the run was not cancelled. */
  lemma SurvivesExactly<D, P>(b: Backend<D, P>, states: seq<System<D, P>>, steps: seq<Step<P>>, i: nat, id: string)
    requires IsRun(b, states, steps) && i < |steps|
    requires forall j :: 0 <= j < i ==> NoOverlap(states[j], steps[j], id)
    requires (steps[i].CheckIn? || steps[i].Cancel?) && On(states[i], steps[i].f, id)
    ensures !Busy(states[i+1], id)
    ensures id in states[i+1].store <==> steps[i].CheckIn?
  {
    hide Cell, FlightMirrors, SerialAnswers;
    RunMirrors(b, states, steps, i, id);
    var s, s', f := states[i], states[i+1], steps[i].f;
    assert s' == Apply(b, s, steps[i]);
    forall g ensures !On(s', g, id) {
      if On(s, g, id) {
        assert On(s, f, id);
        assert g == f;
      }
    }
  }

  // ----- Overlapping runs of one session ----------------------------------------------

  /** A backend whose engine counts the runs of a session. */
  function Counting(defaults: Limits): Backend<int, ()> {
    Backend(Python, "m", "d", defaults,
            (_, _) => Ok(0),
            (n: int, _, _) => (n + 1, RunResult(StatusOk, None, Some(JNum(n as real)), [], false, [])),
            _ => ErrorResult(ValidationError, NOT_FOUND),
            _ => Ok(()),
            (_, _, _) => Ok(0))
  }

  function StateOf(cell: Option<Session<int>>): int {
    if cell.Some? then cell.value.state else 0
  }

  function Finished(s: System<int, ()>, id: string): nat {
    |About(s.ops, id)|
  }

  /** The only flight of its session. */
  ghost predicate Lone(s: System<int, ()>, f: nat, id: string) {
    On(s, f, id) && forall g :: On(s, g, id) ==> g == f
  }

  /** The flight counts from what it took out of the table, and that is no more than n. */
  ghost predicate FlightCounts(d: Limits, flight: Flight<int>, n: nat) {
    && Rejected(Counting(d), flight.request).None?
    && StateOf(flight.origin) <= n
    && flight.session.state == StateOf(flight.origin) + (if flight.result.Some? then 1 else 0)
  }

  /** The serial counter is the number of finished runs; nothing counts higher. After an overlap,
      what will be the stored value once all flights are in is strictly lower. */
  ghost predicate Tally(d: Limits, s: System<int, ()>, id: string, overlapped: bool) {
    var n := Finished(s, id);
    && StateOf(Cell(Counting(d), s.ops, id)) == n
    && StateOf(Lookup(s.store, id)) <= n
    && (forall f :: On(s, f, id) ==> FlightCounts(d, s.flights[f], n))
    && (overlapped ==>
          && (!Busy(s, id) ==> StateOf(Lookup(s.store, id)) < n)
          && forall f :: Lone(s, f, id) ==> StateOf(s.flights[f].origin) < n)
  }

  /** A second run of the session begins. */
  ghost predicate Overlaps(s: System<int, ()>, step: Step<()>, id: string) {
    step.CheckOut? && step.request.sessionId == id && Busy(s, id)
  }

  ghost predicate Overlapped(states: seq<System<int, ()>>, steps: seq<Step<()>>, i: nat, id: string)
    requires i <= |steps| <= |states|
  {
    exists j :: 0 <= j < i && Overlaps(states[j], steps[j], id)
  }

  /** The session is only run, and no run of it is cancelled. */
  ghost predicate OnlyRuns(s: System<int, ()>, step: Step<()>, id: string) {
    match step
    case Atomic(op) => Target(op) != Some(id)
    case Cancel(f) => !On(s, f, id)
    case _ => true
  }

  lemma OneMore(ops: seq<Op<()>>, op: Op<()>, id: string)
    ensures About(ops + [op], id) == if Target(op) == Some(id) then About(ops, id) + [op] else About(ops, id)
  {
    assert (ops + [op])[..|ops|] == ops;
  }

  lemma TallyUntouched(d: Limits, s: System<int, ()>, s': System<int, ()>, id: string, overlapped: bool)
    requires Tally(d, s, id, overlapped)
    requires Lookup(s'.store, id) == Lookup(s.store, id) && Finished(s', id) == Finished(s, id)
    requires Cell(Counting(d), s'.ops, id) == Cell(Counting(d), s.ops, id)
    requires forall f :: (On(s', f, id) <==> On(s, f, id)) && (On(s, f, id) ==> s'.flights[f] == s.flights[f])
    ensures Tally(d, s', id, overlapped)
  {
    hide Cell, FlightCounts, Finished;
    assert Busy(s', id) <==> Busy(s, id);
    assert forall f :: Lone(s', f, id) ==> Lone(s, f, id);
  }

  lemma TallyCheckOut(d: Limits, s: System<int, ()>, f: nat, request: Request, id: string, overlapped: bool)
    requires Tally(d, s, id, overlapped) && Possible(Counting(d), s, CheckOut(f, request))
    requires request.sessionId == id
    ensures Tally(d, Apply(Counting(d), s, CheckOut(f, request)), id, overlapped || Busy(s, id))
  {
    hide Cell;
    var s' := Apply(Counting(d), s, CheckOut(f, request));
    assert s'.ops == s.ops;
    assert forall g :: On(s', g, id) <==> g == f || On(s, g, id);
    assert FlightCounts(d, s'.flights[f], Finished(s, id));
    assert forall g :: On(s, g, id) ==> s'.flights[g] == s.flights[g];
    assert On(s', f, id);
    if Busy(s, id) {
      var h :| On(s, h, id);
      assert On(s', h, id) && h != f;
      assert forall g :: !Lone(s', g, id);
    } else {
      assert s'.flights[f].origin == Lookup(s.store, id);
    }
  }

  lemma TallyExecute(d: Limits, s: System<int, ()>, f: nat, id: string, overlapped: bool)
    requires Tally(d, s, id, overlapped) && Possible(Counting(d), s, Execute(f)) && On(s, f, id)
    ensures Tally(d, Apply(Counting(d), s, Execute(f)), id, overlapped)
  {
    hide Cell;
    var s' := Apply(Counting(d), s, Execute(f));
    assert s'.ops == s.ops;
    assert forall g :: On(s', g, id) <==> On(s, g, id);
    assert Busy(s', id) <==> Busy(s, id);
    assert forall g :: Lone(s', g, id) <==> Lone(s, g, id);
    assert forall g :: g in s'.flights ==> s'.flights[g].origin == s.flights[g].origin;
    assert FlightCounts(d, s.flights[f], Finished(s, id));
  }

  /** A run counts one more than what it starts from. */
  lemma RunCounts(d: Limits, cell: Option<Session<int>>, request: Request)
    requires Rejected(Counting(d), request).None?
    ensures StateOf(Act(Counting(d), cell, Op.Run(request)).0) == StateOf(cell) + 1
  {}

  lemma TallyCheckIn(d: Limits, s: System<int, ()>, f: nat, id: string, overlapped: bool)
    requires Tally(d, s, id, overlapped) && Possible(Counting(d), s, CheckIn(f)) && On(s, f, id)
    ensures Tally(d, Apply(Counting(d), s, CheckIn(f)), id, overlapped)
  {
    hide Cell, Act, Counting, About, Rejected;
    var s' := Apply(Counting(d), s, CheckIn(f));
    var op := Op<()>.Run(s.flights[f].request);
    CellSnoc(Counting(d), s.ops, op, id);
    OneMore(s.ops, op, id);
    RunCounts(d, Cell(Counting(d), s.ops, id), s.flights[f].request);
    assert Finished(s', id) == Finished(s, id) + 1;
    assert forall g :: On(s', g, id) <==> g != f && On(s, g, id);
    assert forall g :: On(s', g, id) ==> FlightCounts(d, s.flights[g], Finished(s, id));
    if !Busy(s', id) {
      forall g | On(s, g, id) ensures g == f {
        assert !On(s', g, id);
      }
      assert Lone(s, f, id);
    }
  }

  /** The step is about another session. */
  ghost predicate Elsewhere(s: System<int, ()>, step: Step<()>, id: string) {
    match step
    case Atomic(op) => Target(op) != Some(id)
    case CheckOut(_, request) => request.sessionId != id
    case Execute(f) => !On(s, f, id)
    case CheckIn(f) => !On(s, f, id)
    case Cancel(f) => !On(s, f, id)
  }

  lemma TallyElsewhere(d: Limits, s: System<int, ()>, step: Step<()>, id: string, overlapped: bool)
    requires Tally(d, s, id, overlapped) && Possible(Counting(d), s, step) && Elsewhere(s, step, id)
    ensures Tally(d, Apply(Counting(d), s, step), id, overlapped)
  {
    hide Cell, Tally, Serial;
    var b, s' := Counting(d), Apply(Counting(d), s, step);
    if step.Atomic? {
      SerialCell(b, s.store, step.op, id);
    }
    if s'.ops != s.ops {
      var op := s'.ops[|s.ops|];
      assert s'.ops == s.ops + [op] && Target(op) != Some(id);
      CellSnoc(b, s.ops, op, id);
      OneMore(s.ops, op, id);
    }
    assert forall g :: On(s', g, id) <==> On(s, g, id);
    TallyUntouched(d, s, s', id, overlapped);
  }

  lemma TallyStep(d: Limits, s: System<int, ()>, step: Step<()>, id: string, overlapped: bool)
    requires Tally(d, s, id, overlapped) && Possible(Counting(d), s, step) && OnlyRuns(s, step, id)
    ensures Tally(d, Apply(Counting(d), s, step), id, overlapped || Overlaps(s, step, id))
  {
    hide Tally, Apply, Possible, Counting;
    if Elsewhere(s, step, id) {
      TallyElsewhere(d, s, step, id, overlapped);
    } else {
      match step
      case CheckOut(f, request) => TallyCheckOut(d, s, f, request, id, overlapped);
      case Execute(f) => TallyExecute(d, s, f, id, overlapped);
      case CheckIn(f) => TallyCheckIn(d, s, f, id, overlapped);
    }
  }

  lemma OverlappedStep(states: seq<System<int, ()>>, steps: seq<Step<()>>, i: nat, id: string)
    requires 0 < i <= |steps| <= |states|
    ensures Overlapped(states, steps, i, id)
       <==> Overlapped(states, steps, i - 1, id) || Overlaps(states[i-1], steps[i-1], id)
  {}

  lemma {:induction false} RunTally(d: Limits, states: seq<System<int, ()>>, steps: seq<Step<()>>, i: nat, id: string)
    requires IsRun(Counting(d), states, steps) && i < |states|
    requires forall j :: 0 <= j < i ==> OnlyRuns(states[j], steps[j], id)
    ensures Tally(d, states[i], id, Overlapped(states, steps, i, id))
  {
    if i > 0 {
      hide Tally, Apply, Possible, Overlaps, Overlapped, OnlyRuns, Counting;
      RunTally(d, states, steps, i - 1, id);
      TallyStep(d, states[i-1], steps[i-1], id, Overlapped(states, steps, i - 1, id));
      OverlappedStep(states, steps, i, id);
    }
  }

  /** Isolation holds exactly without overlap: for the counting engine, in every interleaving in which
      a session is only run, the stored session is the serial one, and counts all finished runs, if
      and only if no run of it began while another was in flight. */
  lemma IsolatedExactly(d: Limits, states: seq<System<int, ()>>, steps: seq<Step<()>>, i: nat, id: string)
    requires IsRun(Counting(d), states, steps) && i < |states| && !Busy(states[i], id)
    requires forall j :: 0 <= j < i ==> OnlyRuns(states[j], steps[j], id)
    ensures var s := states[i];
      && (Lookup(s.store, id) == Lookup(SerialAll(Counting(d), map[], About(s.ops, id)), id)
          <==> !Overlapped(states, steps, i, id))
      && (StateOf(Lookup(s.store, id)) == |About(s.ops, id)| <==> !Overlapped(states, steps, i, id))
  {
    hide Counting, SerialAll;
    RunTally(d, states, steps, i, id);
    Isolation(Counting(d), map[], states[i].ops, id);
    if !Overlapped(states, steps, i, id) {
      forall j | 0 <= j < i ensures NoOverlap(states[j], steps[j], id) {
        assert OnlyRuns(states[j], steps[j], id) && !Overlaps(states[j], steps[j], id);
      }
      SessionsAreIsolated(Counting(d), states, steps, i, id);
    }
  }

  /** Overlapping runs of one id fork the session, and the last check-in wins: after two runs the
      counter is 1, while two runs in turn make it 2. */
  lemma OverlapLosesAnUpdate(request: Request)
    returns (states: seq<System<int, ()>>, steps: seq<Step<()>>)
    requires request.language == Python && !request.validateOnly && request.limits.Some?
    ensures var b := Counting(request.limits.value);
      && IsRun(b, states, steps)
      && var s := states[|states|-1];
      && s.flights == map[] && s.ops == [Run(request), Run(request)]
      && request.sessionId in s.store && s.store[request.sessionId].state == 1
      && StateOf(Cell(b, s.ops, request.sessionId)) == 2
  {
    var b, id := Counting(request.limits.value), request.sessionId;
    var limits := EffectiveLimits(request.limits.value, request);
    var before, after := Session(id, limits, 0), Session(id, limits, 1);
    var result := RunResult(StatusOk, None, Some(JNum(0.0)), [], false, []);
    var out, done := Flight(request, None, before, None), Flight(request, None, after, Some(result));
    var op := Op<()>.Run(request);
    steps := [CheckOut(0, request), CheckOut(1, request), Execute(0), Execute(1), CheckIn(0), CheckIn(1)];
    states := [System(map[], map[], [], []),
               System(map[], map[0 := out], [], []),
               System(map[], map[0 := out, 1 := out], [], []),
               System(map[], map[0 := done, 1 := out], [], []),
               System(map[], map[0 := done, 1 := done], [], []),
               System(map[id := after], map[1 := done], [op], [Ran(result)]),
               System(map[id := after], map[], [op, op], [Ran(result), Ran(result)])];
    CheckedOut(request);
    assert Executed(b, before, request) == (after, result);
    hide Counting, Executed, Opened, Rejected, EffectiveLimits, Cell;
    var empty: Store<int> := map[];
    assert empty - {id} == empty;
    assert Follows(b, states[0], steps[0], states[1]);
    assert Follows(b, states[1], steps[1], states[2]);
    assert Follows(b, states[2], steps[2], states[3]);
    assert Follows(b, states[3], steps[3], states[4]);
    assert Follows(b, states[4], steps[4], states[5]);
    assert Follows(b, states[5], steps[5], states[6]);
    hide Follows;
    forall k | 0 <= k < 6 ensures Follows(b, states[k], steps[k], states[k+1]) {}
    EachFollows(b, states, steps);
    TwoInTurn(request);
  }

  lemma TwoInTurn(request: Request)
    requires request.language == Python && !request.validateOnly && request.limits.Some?
    ensures StateOf(Cell(Counting(request.limits.value), [Run(request), Run(request)], request.sessionId)) == 2
  {
    var b, id, op := Counting(request.limits.value), request.sessionId, Op<()>.Run(request);
    assert Cell(b, [], id) == None;
    CheckedOut(request);
    CellSnoc(b, [], op, id);
    CellSnoc(b, [op], op, id);
    RunCounts(request.limits.value, Cell(b, [], id), request);
    RunCounts(request.limits.value, Cell(b, [op], id), request);
    assert [op] + [op] == [op, op] && [] + [op] == [op];
  }

  ghost predicate Follows(b: Backend<int, ()>, s: System<int, ()>, step: Step<()>, s': System<int, ()>) {
    Possible(b, s, step) && s' == Apply(b, s, step)
  }

  lemma EachFollows(b: Backend<int, ()>, states: seq<System<int, ()>>, steps: seq<Step<()>>)
    requires |states| == |steps| + 1 && states[0] == System(map[], map[], [], [])
    requires forall k :: 0 <= k < |steps| ==> Follows(b, states[k], steps[k], states[k+1])
    ensures IsRun(b, states, steps)
  {
    hide Possible, Apply;
    forall i | 0 <= i < |steps|
      ensures Possible(b, states[i], steps[i]) && states[i+1] == Apply(b, states[i], steps[i])
    {
      assert Follows(b, states[i], steps[i], states[i+1]);
    }
  }

  lemma CheckedOut(request: Request)
    requires request.language == Python && !request.validateOnly && request.limits.Some?
    ensures var b := Counting(request.limits.value);
      && Rejected(b, request).None?
      && Opened(b, None, request)
         == Ok(Session(request.sessionId, EffectiveLimits(request.limits.value, request), 0))
  {}

  /** A dropped run: the session that an earlier run has stored is gone with it. */
  lemma CancelExample(request: Request)
    returns (states: seq<System<int, ()>>, steps: seq<Step<()>>)
    requires request.language == Python && !request.validateOnly && request.limits.Some?
    ensures IsRun(Counting(request.limits.value), states, steps) && |steps| == 5
    ensures forall j :: 0 <= j < |steps| ==> NoOverlap(states[j], steps[j], request.sessionId)
    ensures steps[4] == Cancel(1) && request.sessionId in states[3].store
    ensures states[5].store == map[] && states[5].flights == map[]
  {
    var b, id := Counting(request.limits.value), request.sessionId;
    var limits := EffectiveLimits(request.limits.value, request);
    var before, after := Session(id, limits, 0), Session(id, limits, 1);
    var result := RunResult(StatusOk, None, Some(JNum(0.0)), [], false, []);
    var op, ended := Op<()>.Run(request), Op<()>.Destroy(id);
    steps := [CheckOut(0, request), Execute(0), CheckIn(0), CheckOut(1, request), Cancel(1)];
    states := [System(map[], map[], [], []),
               System(map[], map[0 := Flight(request, None, before, None)], [], []),
               System(map[], map[0 := Flight(request, None, after, Some(result))], [], []),
               System(map[id := after], map[], [op], [Ran(result)]),
               System(map[], map[1 := Flight(request, Some(after), after, None)], [op], [Ran(result)]),
               System(map[], map[], [op, ended], [Ran(result), Destroyed(true)])];
    CheckedOut(request);
    assert Executed(b, before, request) == (after, result);
    assert Opened(b, Some(after), request) == Ok(after);
    hide Counting, Executed, Opened, Rejected, EffectiveLimits;
    var empty: Store<int> := map[];
    assert empty - {id} == empty;
    assert Follows(b, states[0], steps[0], states[1]);
    assert Follows(b, states[1], steps[1], states[2]);
    assert Follows(b, states[2], steps[2], states[3]);
    assert Follows(b, states[3], steps[3], states[4]);
    assert Follows(b, states[4], steps[4], states[5]);
    assert !Busy(states[0], id) && !Busy(states[3], id);
    hide Follows, Busy;
    forall k | 0 <= k < 5 ensures Follows(b, states[k], steps[k], states[k+1]) {}
    EachFollows(b, states, steps);
  }
}
