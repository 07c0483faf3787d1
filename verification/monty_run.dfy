/** One Monty run: the static check, the conversion of inputs, the snippet itself, and a second
    snippet, `result`, that asks for the value to report. */
module MontyRun {
  import opened Core
  import opened MontyDispatcher
  import opened RunResults
  import opened Sessions
  import MontyLoop
  import PythonValidator

  /** The two snippets of a run. */
  datatype Snippet = Main | Probe

  const PROBE_CODE := "result"

  type Inputs = seq<(string, Json)>

  /** The Python engine. `S` is a REPL, `V` a Python value. `world` answers the calls of each
      snippet, so neither has to repeat the other's answers. */
  datatype Engine<!S, !V> = Engine(
    registry: map<string, Tool>,
    representable: Json -> bool,
    world: (Snippet, nat, string, Json) -> Result<Json>,
    vm: Machine<S, V>,
    parse: string -> Option<seq<PythonValidator.Node>>,
    compile: (string, Inputs) -> Option<ErrorObject>,
    withDuration: (S, U32) -> S,
    badInput: Json -> Option<ErrorObject>,
    begin: (S, string, Inputs) -> Yield<S, V>,
    isNone: V -> bool,
    toJson: V -> Result<Json>)

  function HostOf<S, V>(e: Engine<S, V>, limits: Limits, snippet: Snippet): Host {
    Host(e.registry,
         limits.maxExternalCalls,
         (k: nat, name: string, context: Json) => e.world(snippet, k, name, context),
         e.representable)
  }

  // ----- The ends of a run ----------------------------------------------------------

  datatype End<+S> = End(repl: S, result: RunResult)

  /** An outcome some run of the dispatcher on this snippet can have. */
  ghost predicate CanEnd<S(!new), V(!new)>(host: Host, vm: Machine<S, V>, start: Yield<S, V>, outcome: Outcome<S, V>) {
    exists states: seq<State<S, V>>, arrivals: seq<seq<Item>> ::
      IsRun(host, vm, start, states, arrivals) && states[|states|-1].exit == Some(outcome)
  }

  /** A failed snippet whose output is cut. */
  function CutFailure<S, V>(limits: Limits, o: Outcome<S, V>): End<S>
    requires o.Errored?
  {
    End(o.repl, RunResult(CodeToStatus(o.error.code, false), Some(o.error), None,
                          Cut(o.stdout, limits), Overflows(o.stdout, limits), o.records))
  }

  /** A failure after the main snippet completed: all output so far, uncut. */
  function RawFailure<S>(repl: S, status: RunStatus, error: ErrorObject, stdout: string, records: seq<CallRecord>)
    : End<S>
  {
    End(repl, RunResult(status, Some(error), None, Bytes(stdout), false, records))
  }

  function Success<S>(limits: Limits, repl: S, value: Option<Json>, stdout: string, records: seq<CallRecord>): End<S> {
    End(repl, RunResult(StatusOk, None, value, Cut(stdout, limits), Overflows(stdout, limits), records))
  }

  /** The main snippet completed, with a value that can be reported. */
  predicate GoesOn<S, V>(e: Engine<S, V>, main: Outcome<S, V>) {
    main.Completed? && (e.isNone(main.value) || e.toJson(main.value).Ok?)
  }

  function Expression<S, V>(e: Engine<S, V>, main: Outcome<S, V>): Option<Json>
    requires GoesOn(e, main)
  {
    if e.isNone(main.value) then None else Some(e.toJson(main.value).value)
  }

  /** The probe failed because there is nothing to report but the expression. */
  predicate NoResultName<S, V>(probe: Outcome<S, V>) {
    probe.Errored? && (probe.error.code == "UNKNOWN_TOOL" || probe.error.code == "RUNTIME_ERROR")
  }

  function AfterMain<S, V>(e: Engine<S, V>, limits: Limits, main: Outcome<S, V>): End<S>
    requires !GoesOn(e, main)
  {
    if main.Errored? then CutFailure(limits, main)
    else RawFailure(main.repl, ValidationError, e.toJson(main.value).error, main.stdout, main.records)
  }

  function AfterProbe<S, V>(e: Engine<S, V>, limits: Limits, main: Outcome<S, V>, probe: Outcome<S, V>): End<S>
    requires GoesOn(e, main)
  {
    var stdout, records := main.stdout + probe.stdout, main.records + probe.records;
    if probe.Completed? then
      match e.toJson(probe.value)
      case Ok(value) => Success(limits, probe.repl, Some(value), stdout, records)
      case Err(error) => RawFailure(probe.repl, ValidationError, error, stdout, records)
    else if NoResultName(probe) then Success(limits, probe.repl, Expression(e, main), stdout, records)
    else RawFailure(probe.repl, CodeToStatus(probe.error.code, false), probe.error, stdout, records)
  }

  /** The snippets a run executed. */
  datatype Trace<+S, +V> =
    | NoSnippet
    | OneSnippet(main: Outcome<S, V>)
    | TwoSnippets(main: Outcome<S, V>, probe: Outcome<S, V>)

  function Static<S, V>(e: Engine<S, V>, code: string): Option<ErrorObject> {
    match e.parse(code)
    case None => None
    case Some(body) => PythonValidator.First(e.registry.Keys, body)
  }

  function BadInput<S, V>(e: Engine<S, V>, inputs: Inputs): Option<ErrorObject> {
    if inputs == [] then None
    else
      match e.badInput(inputs[0].1)
      case Some(error) => Some(error)
      case None => BadInput(e, inputs[1..])
  }

  function WithDuration<S, V>(e: Engine<S, V>, session: Session<S>, request: Request): S {
    e.withDuration(session.state,
                   if request.timeoutMs.Some? then request.timeoutMs.value else session.limits.wallMs)
  }

  ghost predicate MainCanEnd<S(!new), V(!new)>(e: Engine<S, V>, session: Session<S>, request: Request, inputs: Inputs,
                                   main: Outcome<S, V>)
  {
    var start := e.begin(WithDuration(e, session, request), request.code, inputs);
    CanEnd(HostOf(e, session.limits, Main), e.vm, start, main)
  }

  ghost predicate ProbeCanEnd<S(!new), V(!new)>(e: Engine<S, V>, limits: Limits,
                                                main: Outcome<S, V>, probe: Outcome<S, V>)
  {
    CanEnd(HostOf(e, limits, Probe), e.vm, e.begin(main.repl, PROBE_CODE, []), probe)
  }

  /** A run of a session: which snippets it executes, and how it ends. */
  ghost predicate Runs<S(!new), V(!new)>(e: Engine<S, V>, session: Session<S>, request: Request, inputs: Inputs,
                             trace: Trace<S, V>, end: End<S>)
  {
    var refused, bad := Static(e, request.code), BadInput(e, inputs);
    if refused.Some? then
      && trace == NoSnippet
      && end == End(session.state, ErrorResult(CodeToStatus(refused.value.code, true), refused.value))
    else if bad.Some? then
      trace == NoSnippet && end == End(WithDuration(e, session, request), ErrorResult(ValidationError, bad.value))
    else
      && !trace.NoSnippet?
      && MainCanEnd(e, session, request, inputs, trace.main)
      && (GoesOn(e, trace.main) <==> trace.TwoSnippets?)
      && match trace
         case OneSnippet(main) => end == AfterMain(e, session.limits, main)
         case TwoSnippets(main, probe) =>
           ProbeCanEnd(e, session.limits, main, probe) && end == AfterProbe(e, session.limits, main, probe)
  }

  // ----- The run, step by step --------------------------------------------------------

  method CheckInputs<S, V>(e: Engine<S, V>, inputs: Inputs) returns (error: Option<ErrorObject>)
    ensures error == BadInput(e, inputs)
  {
    for i := 0 to |inputs|
      invariant BadInput(e, inputs) == BadInput(e, inputs[i..])
    {
      assert inputs[i..][0] == inputs[i] && inputs[i..][1..] == inputs[i+1..];
      error := e.badInput(inputs[i].1);
      if error.Some? { return; }
    }
    error := None;
  }

  method RunSnippet<S(!new), V(!new)>(host: Host, vm: Machine<S, V>, start: Yield<S, V>, fuel: nat)
    returns (outcome: Option<Outcome<S, V>>)
    ensures outcome.Some? ==> CanEnd(host, vm, start, outcome.value)
  {
    ghost var states, arrivals;
    outcome, states, arrivals := MontyLoop.RunReplSnippet(host, vm, start, fuel);
  }

  /** Runs a request in a session, giving each snippet at most `fuel` turns; None while a snippet
      is still running. A run is Ok exactly when its second snippet gives a value or finds no name
      `result`, and then it reports that value, a left-over of an earlier run included, or else the
      value of the first snippet. Every answered call of either snippet is logged, in order. */
  method RunSession<S(!new), V(!new)>(e: Engine<S, V>, session: Session<S>, request: Request, inputs: Inputs, fuel: nat)
    returns (answer: Option<(Session<S>, RunResult)>, ghost trace: Trace<S, V>)
    ensures answer.Some? ==>
      Runs(e, session, request, inputs, trace, End(answer.value.0.state, answer.value.1))
    ensures answer.Some? ==> answer.value.0 == session.(state := answer.value.0.state)
    ensures Static(e, request.code).Some? ==> answer.Some? && answer.value.0 == session && answer.value.1.calls == []
    ensures answer.Some? ==> answer.value.1.calls == TraceRecords(trace)
    ensures answer.Some? ==> (answer.value.1.status == StatusOk <==> Reports(e, trace))
    ensures answer.Some? ==> (answer.value.1.status == StatusOk <==> answer.value.1.error == None)
    ensures answer.Some? && answer.value.1.status == StatusOk ==> answer.value.1.result == Reported(e, trace)
    // A run that is not Ok reports what its last event raised, with the status of that.
    ensures answer.Some? && answer.value.1.status != StatusOk ==>
      && answer.value.1.result == None && answer.value.1.error == Raised(e, request, inputs, trace)
      && (if SnippetFailed(trace) then StatusFits(answer.value.1.status, answer.value.1.error.value.code)
          else answer.value.1.status == ValidationError)
  {
    hide Runs, Static, Reports, Reported, Raised, SnippetFailed, StatusFits, TraceRecords;
    var end;
    end, trace := RunSnippets(e, session, request, inputs, fuel);
    if end.None? {
      return None, trace;
    }
    OkExactly(e, session, request, inputs, trace, end.value);
    if end.value.result.status != StatusOk {
      FailsExactly(e, session, request, inputs, trace, end.value);
    }
    answer := Some((session.(state := end.value.repl), end.value.result));
  }

  /** The second snippet was reached, and gave a value or found no name. */
  predicate Reports<S, V>(e: Engine<S, V>, trace: Trace<S, V>) {
    && trace.TwoSnippets?
    && if trace.probe.Completed? then e.toJson(trace.probe.value).Ok?
       else trace.probe.error.code == "UNKNOWN_TOOL" || trace.probe.error.code == "RUNTIME_ERROR"
  }

  function Reported<S, V>(e: Engine<S, V>, trace: Trace<S, V>): Option<Json> {
    if !trace.TwoSnippets? || trace.main.Errored? then None
    else
      var value := if trace.probe.Completed? then trace.probe.value else trace.main.value;
      if trace.probe.Errored? && e.isNone(value) then None
      else
        match e.toJson(value)
        case Ok(json) => Some(json)
        case Err(_) => None
  }

  /** The last snippet failed. */
  predicate SnippetFailed<S, V>(trace: Trace<S, V>) {
    match trace
    case NoSnippet => false
    case OneSnippet(main) => main.Errored?
    case TwoSnippets(_, probe) => probe.Errored?
  }

  /** The error of a run that is not Ok: the check's, the first bad input's, the failed snippet's, or
      that of the value that could not be converted. */
  function Raised<S, V>(e: Engine<S, V>, request: Request, inputs: Inputs, trace: Trace<S, V>): Option<ErrorObject> {
    match trace
    case NoSnippet => if Static(e, request.code).Some? then Static(e, request.code) else BadInput(e, inputs)
    case OneSnippet(main) => OwnError(e, main)
    case TwoSnippets(_, probe) => OwnError(e, probe)
  }

  function OwnError<S, V>(e: Engine<S, V>, o: Outcome<S, V>): Option<ErrorObject> {
    if o.Errored? then Some(o.error)
    else
      match e.toJson(o.value)
      case Ok(_) => None
      case Err(error) => Some(error)
  }

  lemma FailsExactly<S(!new), V(!new)>(e: Engine<S, V>, session: Session<S>, request: Request, inputs: Inputs,
                                       trace: Trace<S, V>, end: End<S>)
    requires Runs(e, session, request, inputs, trace, end) && end.result.status != StatusOk
    ensures end.result.result == None && end.result.error == Raised(e, request, inputs, trace)
    ensures end.result.error.Some?
    ensures if SnippetFailed(trace) then StatusFits(end.result.status, end.result.error.value.code)
            else end.result.status == ValidationError
  {
    hide CodeToStatus, StatusFits;
    match trace
    case NoSnippet =>
      if Static(e, request.code).Some? {
        StaticStatus(e.registry.Keys, e.parse(request.code).value);
      }
    case OneSnippet(main) => if main.Errored? { StatusExactly(main.error.code); }
    case TwoSnippets(_, probe) => if probe.Errored? { StatusExactly(probe.error.code); }
  }

  function TraceRecords<S, V>(trace: Trace<S, V>): seq<CallRecord> {
    match trace
    case NoSnippet => []
    case OneSnippet(main) => main.records
    case TwoSnippets(main, probe) => main.records + probe.records
  }

  lemma OkExactly<S(!new), V(!new)>(e: Engine<S, V>, session: Session<S>, request: Request, inputs: Inputs,
                                    trace: Trace<S, V>, end: End<S>)
    requires Runs(e, session, request, inputs, trace, end)
    ensures end.result.calls == TraceRecords(trace)
    ensures end.result.status == StatusOk <==> end.result.error == None
    ensures end.result.status == StatusOk <==> Reports(e, trace)
    ensures end.result.status == StatusOk ==> end.result.result == Reported(e, trace)
  {
    var refused := Static(e, request.code);
    if refused.Some? {
      ValidationIsNeverOk(refused.value.code);
    } else if trace.OneSnippet? && trace.main.Errored? {
      ValidationIsNeverOk(trace.main.error.code);
    } else if trace.TwoSnippets? && trace.probe.Errored? {
      ValidationIsNeverOk(trace.probe.error.code);
    }
  }

  method RunSnippets<S(!new), V(!new)>(e: Engine<S, V>, session: Session<S>, request: Request, inputs: Inputs,
                                       fuel: nat)
    returns (end: Option<End<S>>, ghost trace: Trace<S, V>)
    ensures end.Some? ==> Runs(e, session, request, inputs, trace, end.value)
    ensures Static(e, request.code).Some? ==>
      end.Some? && end.value.repl == session.state && end.value.result.calls == []
  {
    trace := NoSnippet;
    var refused := PythonValidator.StaticValidationError(e.registry.Keys, e.parse(request.code));
    if refused.Some? {
      return Some(End(session.state, ErrorResult(CodeToStatus(refused.value.code, true), refused.value))), trace;
    }
    var repl := WithDuration(e, session, request);
    var bad := CheckInputs(e, inputs);
    if bad.Some? {
      return Some(End(repl, ErrorResult(ValidationError, bad.value))), trace;
    }
    var limits := session.limits;
    var outcome := RunSnippet(HostOf(e, limits, Main), e.vm, e.begin(repl, request.code, inputs), fuel);
    if outcome.None? { return None, trace; }
    var main := outcome.value;
    trace := OneSnippet(main);
    if main.Errored? {
      var kept, cut := TruncateStdout(main.stdout, limits);
      var result := RunResult(CodeToStatus(main.error.code, false), Some(main.error), None, kept, cut, main.records);
      return Some(End(main.repl, result)), trace;
    }
    var expression: Option<Json> := None;
    if !e.isNone(main.value) {
      var json := e.toJson(main.value);
      if json.Err? {
        var result := RunResult(ValidationError, Some(json.error), None, Bytes(main.stdout), false, main.records);
        return Some(End(main.repl, result)), trace;
      }
      expression := Some(json.value);
    }
    assert GoesOn(e, main) && expression == Expression(e, main);
    outcome := RunSnippet(HostOf(e, limits, Probe), e.vm, e.begin(main.repl, PROBE_CODE, []), fuel);
    if outcome.None? { return None, trace; }
    var probe := outcome.value;
    trace := TwoSnippets(main, probe);
    var concluded := Conclude(e, limits, main, expression, probe);
    return Some(concluded), trace;
  }

  method Conclude<S, V>(e: Engine<S, V>, limits: Limits, main: Outcome<S, V>, expression: Option<Json>,
                        probe: Outcome<S, V>)
    returns (end: End<S>)
    requires GoesOn(e, main) && expression == Expression(e, main)
    ensures end == AfterProbe(e, limits, main, probe)
  {
    var stdout, records := main.stdout + probe.stdout, main.records + probe.records;
    var value := expression;
    match probe {
      case Completed(repl, v, _, _) =>
        var json := e.toJson(v);
        if json.Err? {
          return End(repl, RunResult(ValidationError, Some(json.error), None, Bytes(stdout), false, records));
        }
        value := Some(json.value);
      case Errored(repl, error, _, _) =>
        if error.code != "UNKNOWN_TOOL" && error.code != "RUNTIME_ERROR" {
          var status := CodeToStatus(error.code, false);
          return End(repl, RunResult(status, Some(error), None, Bytes(stdout), false, records));
        }
    }
    var kept, cut := TruncateStdout(stdout, limits);
    end := End(probe.repl, RunResult(StatusOk, None, value, kept, cut, records));
  }

  /** Validation without running. */
  method Validate<S(!new), V(!new)>(e: Engine<S, V>, request: Request, inputs: Inputs) returns (result: RunResult)
    ensures result.status == StatusOk <==> Static(e, request.code).None? && e.compile(request.code, inputs).None?
    ensures result.error
         == if Static(e, request.code).Some? then Static(e, request.code) else e.compile(request.code, inputs)
    ensures result.stdout == [] && result.calls == [] && result.result == None
    ensures result.error.Some? ==>
      if StatusFits(RuntimeError, result.error.value.code) then result.status == ValidationError
      else StatusFits(result.status, result.error.value.code)
    // Code the check refuses gets the same answer from a run, which leaves the session alone.
    ensures Static(e, request.code).Some? ==>
      forall session, trace, end :: Runs(e, session, request, inputs, trace, end) ==>
        end.result == result && end.repl == session.state && trace == NoSnippet
  {
    var refused := PythonValidator.StaticValidationError(e.registry.Keys, e.parse(request.code));
    if refused.Some? {
      StatusExactly(refused.value.code);
      StaticStatus(e.registry.Keys, e.parse(request.code).value);
      return ErrorResult(CodeToStatus(refused.value.code, true), refused.value);
    }
    match e.compile(request.code, inputs) {
      case None => result := RunResult(StatusOk, None, None, [], false, []);
      case Some(error) =>
        ValidationIsNeverOk(error.code);
        StatusExactly(error.code);
        result := ErrorResult(CodeToStatus(error.code, true), error);
    }
  }

  /** Whatever the check refuses is a validation error. */
  lemma StaticStatus(registered: set<string>, body: seq<PythonValidator.Node>)
    requires PythonValidator.First(registered, body).Some?
    ensures CodeToStatus(PythonValidator.First(registered, body).value.code, true) == ValidationError
  {
    var p := PythonValidator.ReportIsFirst(registered, body);
    var n := PythonValidator.NodeAt(body, p);
    assert PythonValidator.Finding(registered, n).value.code in {"UNSUPPORTED_FEATURE", "UNKNOWN_TOOL"};
  }

  // ----- What holds of every run ------------------------------------------------------

  function TraceStdout<S, V>(trace: Trace<S, V>): string {
    match trace
    case NoSnippet => ""
    case OneSnippet(main) => main.stdout
    case TwoSnippets(main, probe) => main.stdout + probe.stdout
  }

  /** The three exits that skip the output limit: the expression or the result cannot be
      reported, or the probe fails in an unexpected way. */
  predicate SkipsTheLimit<S, V>(e: Engine<S, V>, trace: Trace<S, V>) {
    match trace
    case NoSnippet => false
    case OneSnippet(main) => main.Completed?
    case TwoSnippets(_, probe) => !Reports(e, trace)
  }

  /** The output of every run, on every exit: the bytes of what both snippets printed, cut to
      the longest part that fits. Three exits do not cut; the limit is kept exactly when the
      run does not take one of them with too much output. */
  lemma StdoutBoundExactly<S(!new), V(!new)>(e: Engine<S, V>, session: Session<S>, request: Request, inputs: Inputs,
                                 trace: Trace<S, V>, end: End<S>)
    requires Runs(e, session, request, inputs, trace, end)
    ensures var printed, max := TraceStdout(trace), session.limits.maxStdoutBytes;
      && end.result.stdout <= Bytes(printed)
      && (|end.result.stdout| <= max <==> !(SkipsTheLimit(e, trace) && Overflows(printed, session.limits)))
      && (end.result.stdoutCut <==> end.result.stdout != Bytes(printed))
      && (end.result.stdoutCut ==> |end.result.stdout| + 3 >= max)
      && (SkipsTheLimit(e, trace) ==> end.result.status != StatusOk && end.result.stdout == Bytes(printed))
  {
    CutFits(TraceStdout(trace), session.limits);
    if trace.TwoSnippets? && trace.probe.Errored? { ValidationIsNeverOk(trace.probe.error.code); }
  }

  /** The limit does fail: any snippet that completes at once with a value that cannot be
      reported keeps all it printed, past any limit. */
  lemma UnboundedStdoutExample<S(!new), V(!new)>(e: Engine<S, V>, session: Session<S>, request: Request,
                                                 repl: S, value: V, printed: string)
    returns (trace: Trace<S, V>, end: End<S>)
    requires Static(e, request.code).None?
    requires e.begin(WithDuration(e, session, request), request.code, []) == Yield(Complete(repl, value), printed)
    requires !e.isNone(value) && e.toJson(value).Err?
    requires |printed| > session.limits.maxStdoutBytes
    ensures Runs(e, session, request, [], trace, end)
    ensures |end.result.stdout| > session.limits.maxStdoutBytes && !end.result.stdoutCut
  {
    var host, start := HostOf(e, session.limits, Main), Yield(Complete(repl, value), printed);
    var main := Completed(repl, value, printed, []);
    var states := [Initial(start), Advance(host, e.vm, Initial(start), [])];
    assert IsRun(host, e.vm, start, states, [[]]) && states[|states|-1].exit == Some(main);
    assert MainCanEnd(e, session, request, [], main);
    trace, end := OneSnippet(main), AfterMain(e, session.limits, main);
    AtLeastOneByteEach(Text(printed));
  }

  lemma SnippetBound<S(!new), V(!new)>(host: Host, vm: Machine<S, V>, start: Yield<S, V>, outcome: Outcome<S, V>)
    requires CanEnd(host, vm, start, outcome) && host.maxCalls < U32_MAX
    ensures |outcome.records| <= host.maxCalls
  {
    var states: seq<State<S, V>>, arrivals: seq<seq<Item>> :|
      IsRun(host, vm, start, states, arrivals) && states[|states|-1].exit == Some(outcome);
    MontyLoop.RecordsBound(host, vm, start, states, arrivals);
  }

  /** Each snippet has the whole call limit, so a run stays within twice the limit, and the
      calls of the main snippet within it. */
  lemma CallBound<S(!new), V(!new)>(e: Engine<S, V>, session: Session<S>, request: Request, inputs: Inputs,
                        trace: Trace<S, V>, end: End<S>)
    requires Runs(e, session, request, inputs, trace, end)
    requires session.limits.maxExternalCalls < U32_MAX
    ensures |end.result.calls| <= 2 * session.limits.maxExternalCalls
    ensures !trace.NoSnippet? ==> |trace.main.records| <= session.limits.maxExternalCalls
  {
    var limits := session.limits;
    if !trace.NoSnippet? {
      var start := e.begin(WithDuration(e, session, request), request.code, inputs);
      SnippetBound(HostOf(e, limits, Main), e.vm, start, trace.main);
    }
    if trace.TwoSnippets? {
      SnippetBound(HostOf(e, limits, Probe), e.vm, e.begin(trace.main.repl, PROBE_CODE, []), trace.probe);
    }
  }

  /** Code the check refuses is never started: same status and error as validation, no output,
      no call, the REPL as it was. Code it accepts uses nothing the sandbox forbids. */
  lemma RefusedCodeNeverRuns<S(!new), V(!new)>(e: Engine<S, V>, session: Session<S>, request: Request, inputs: Inputs,
                                   trace: Trace<S, V>, end: End<S>)
    requires Runs(e, session, request, inputs, trace, end) && e.parse(request.code).Some?
    ensures !PythonValidator.Clean(e.registry.Keys, e.parse(request.code).value) ==>
      && trace == NoSnippet && end.repl == session.state
      && end.result.status == ValidationError && end.result.error == Static(e, request.code)
      && end.result.stdout == [] && end.result.calls == []
    ensures !trace.NoSnippet? ==> PythonValidator.Clean(e.registry.Keys, e.parse(request.code).value)
  {
    var body := e.parse(request.code).value;
    PythonValidator.ReportExactly(e.registry.Keys, body);
    if PythonValidator.First(e.registry.Keys, body).Some? {
      StaticStatus(e.registry.Keys, body);
    }
  }

  /** The error about the inputs is that of the first one that cannot be converted. */
  lemma {:induction false} BadInputExactly<S, V>(e: Engine<S, V>, inputs: Inputs)
    ensures BadInput(e, inputs).None? <==> forall i :: 0 <= i < |inputs| ==> e.badInput(inputs[i].1).None?
    ensures BadInput(e, inputs).Some? ==>
      exists i :: 0 <= i < |inputs| && e.badInput(inputs[i].1) == BadInput(e, inputs)
                  && forall j :: 0 <= j < i ==> e.badInput(inputs[j].1).None?
  {
    if inputs != [] {
      BadInputExactly(e, inputs[1..]);
      assert forall i :: 0 <= i < |inputs| - 1 ==> inputs[1..][i] == inputs[i+1];
      if e.badInput(inputs[0].1).None? && BadInput(e, inputs[1..]).Some? {
        var i :| 0 <= i < |inputs| - 1 && e.badInput(inputs[1..][i].1) == BadInput(e, inputs[1..])
                 && forall j :: 0 <= j < i ==> e.badInput(inputs[1..][j].1).None?;
        forall j | 0 <= j < i + 1 ensures e.badInput(inputs[j].1).None? {
          if j > 0 { assert e.badInput(inputs[1..][j-1].1).None?; }
        }
        assert e.badInput(inputs[i+1].1) == BadInput(e, inputs);
      }
    }
  }

  /** A snippet that completes without asking for anything has one outcome. */
  lemma CompletesAtOnce<S(!new), V(!new)>(host: Host, vm: Machine<S, V>, repl: S, value: V, printed: string,
                                          o: Outcome<S, V>)
    requires CanEnd(host, vm, Yield(Complete(repl, value), printed), o)
    ensures o == Completed(repl, value, printed, [])
  {
    var states: seq<State<S, V>>, arrivals: seq<seq<Item>> :|
      IsRun(host, vm, Yield(Complete(repl, value), printed), states, arrivals) && states[|states|-1].exit == Some(o);
    assert states[1] == Advance(host, vm, states[0], arrivals[0]);
    assert states[1].exit == Some(Completed(repl, value, printed, []));
    assert |states| == 2;
  }

  /** What a run starts its engine with. For code that asks for nothing: the session's REPL under the
      request's time limit (or else the session's) gets the code and the inputs, the REPL that this
      leaves gets the code `result`, and the run reports the value of that, all output, and the REPL
      that is left. */
  lemma ImmediateRun<S(!new), V(!new)>(e: Engine<S, V>, session: Session<S>, request: Request, inputs: Inputs,
                                       trace: Trace<S, V>, end: End<S>, first: Yield<S, V>, second: Yield<S, V>)
    requires Runs(e, session, request, inputs, trace, end)
    requires Static(e, request.code).None? && BadInput(e, inputs).None?
    requires var ms := if request.timeoutMs.Some? then request.timeoutMs.value else session.limits.wallMs;
      first == e.begin(e.withDuration(session.state, ms), request.code, inputs)
    requires first.progress.Complete? && (e.isNone(first.progress.value) || e.toJson(first.progress.value).Ok?)
    requires second == e.begin(first.progress.repl, "result", [])
    requires second.progress.Complete? && e.toJson(second.progress.value).Ok?
    requires |Bytes(first.printed + second.printed)| <= session.limits.maxStdoutBytes
    ensures end.repl == second.progress.repl
    ensures end.result == RunResult(StatusOk, None, Some(e.toJson(second.progress.value).value),
                                    Bytes(first.printed + second.printed), false, [])
  {
    CompletesAtOnce(HostOf(e, session.limits, Main), e.vm, first.progress.repl, first.progress.value, first.printed,
                    trace.main);
    CompletesAtOnce(HostOf(e, session.limits, Probe), e.vm, second.progress.repl, second.progress.value, second.printed,
                    trace.probe);
    CutFits(first.printed + second.printed, session.limits);
    assert trace.main.records + trace.probe.records == [];
  }
}
