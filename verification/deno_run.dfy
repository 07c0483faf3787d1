/** One run of a TypeScript session: the checks before it, the script with its tool calls, and the report. */
module DenoRun {
  import opened Core
  import opened DenoCalls
  import opened RunResults
  import opened Sessions
  import Utf8

  /** What a script did: the session's globals after it, its calls and prints as they happened, and the
      error it ended with. */
  datatype Execution<+S> = Execution(globals: S, events: seq<Event>, error: Option<ErrorObject>)

  /** The TypeScript engine. `S` is the state of the global object. */
  datatype Engine<!S> = Engine(
    registry: map<string, Tool>,
    check: string -> Option<ErrorObject>,
    transpile: string -> Result<string>,
    wrap: string -> string,
    inject: (S, map<string, Json>) -> (S, Option<ErrorObject>),
    execute: (S, string, U32, Choices) -> Execution<S>,
    read: S -> Result<Option<Json>>)

  datatype Report = Report(
    status: RunStatus,
    error: Option<ErrorObject>,
    result: Option<Json>,
    stdout: seq<Utf8.Byte>,
    stderr: seq<Utf8.Byte>,
    cut: bool,                            // the STDOUT_EXCEEDED diagnostic
    calls: seq<CallRecord>)

  /** A session: its limits, its globals, and the state that its tool calls share. */
  datatype SessionState<+S> = SessionState(limits: Limits, globals: S, ops: DenoCalls.System)

  function Plain(status: RunStatus, error: ErrorObject): Report {
    Report(status, Some(error), None, [], [], false, [])
  }

  /** The events in turn; what cannot happen does not. */
  function Applied(s: DenoCalls.System, events: seq<Event>): DenoCalls.System {
    if events == [] then s
    else
      var n := |events| - 1;
      var before := Applied(s, events[..n]);
      if !events[n].Reset? && Possible(before, events[n]) then DenoCalls.Step(before, events[n]) else before
  }

  /** Why code is not run at all, if it is not. */
  function Refused<S>(e: Engine<S>, code: string): Option<ErrorObject> {
    if e.check(code).Some? then e.check(code)
    else
      match e.transpile(code)
      case Err(error) => Some(error)
      case Ok(_) => None
  }

  function AfterReset<S>(e: Engine<S>, before: SessionState<S>): DenoCalls.System {
    DenoCalls.System(ResetData(e.registry, before.limits), before.ops.inFlight)
  }

  function Executed<S>(e: Engine<S>, before: SessionState<S>, request: Request, inputs: map<string, Json>): Execution<S>
    requires Refused(e, request.code).None?
  {
    e.execute(e.inject(before.globals, inputs).0,
              e.wrap(e.transpile(request.code).value),
              if request.timeoutMs.Some? then request.timeoutMs.value else before.limits.wallMs,
              request.choices)
  }

  function Concluded<S>(e: Engine<S>, limits: Limits, x: Execution<S>, d: DenoCalls.Data): Report {
    var error := RunError(x.error, d);
    var read := e.read(x.globals);
    Report(if error.Some? then CodeToStatus(error.value.code, false)
           else if read.Err? then ValidationError
           else StatusOk,
           if error.Some? then error else if read.Err? then Some(read.error) else None,
           if error.None? && read.Ok? then read.value else None,
           Cut(d.stdout, limits), Cut(d.stderr, limits),
           Overflows(d.stdout, limits) || Overflows(d.stderr, limits),
           d.records)
  }

  ghost predicate Runs<S>(e: Engine<S>, request: Request, inputs: map<string, Json>,
                          before: SessionState<S>, after: SessionState<S>, r: Report)
  {
    var refused := Refused(e, request.code);
    if refused.Some? then after == before && r == Plain(CodeToStatus(refused.value.code, true), refused.value)
    else
      var (globals, bad) := e.inject(before.globals, inputs);
      var started := AfterReset(e, before);
      if bad.Some? then after == before.(globals := globals, ops := started) && r == Plain(ValidationError, bad.value)
      else
        var x := Executed(e, before, request, inputs);
        var ops := Applied(started, x.events);
        after == before.(globals := x.globals, ops := ops) && r == Concluded(e, before.limits, x, ops.data)
  }

  class DenoSession<!S> {
    var limits: Limits
    var globals: S
    var ops: DenoCalls.System

    function Value(): SessionState<S> reads this {
      SessionState(limits, globals, ops)
    }

    constructor (limits: Limits, globals: S, ops: DenoCalls.System)
      ensures Value() == SessionState(limits, globals, ops)
    {
      this.limits, this.globals, this.ops := limits, globals, ops;
    }

    method Run(e: Engine<S>, request: Request, inputs: map<string, Json>) returns (r: Report)
      modifies this
      ensures Runs(e, request, inputs, old(Value()), Value(), r)
    {
      var checked := e.check(request.code);
      if checked.Some? {
        return Plain(CodeToStatus(checked.value.code, true), checked.value);
      }
      var js := e.transpile(request.code);
      if js.Err? {
        return Plain(CodeToStatus(js.error.code, true), js.error);
      }
      ops := ops.(data := ResetData(e.registry, limits));
      var (injected, bad) := e.inject(globals, inputs);
      globals := injected;
      if bad.Some? {
        return Plain(ValidationError, bad.value);
      }
      var timeout := if request.timeoutMs.Some? then request.timeoutMs.value else limits.wallMs;
      var x := e.execute(globals, e.wrap(js.value), timeout, request.choices);
      globals, ops := x.globals, Applied(ops, x.events);
      var data := ops.data;
      var error := RunError(x.error, data);
      if error.Some? {
        r := Report(CodeToStatus(error.value.code, false), error, None, [], [], false, []);
      } else {
        match e.read(globals) {
          case Ok(value) => r := Report(StatusOk, None, value, [], [], false, []);
          case Err(unreadable) => r := Report(ValidationError, Some(unreadable), None, [], [], false, []);
        }
      }
      r := ApplyStreams(r, data, limits);
    }
  }

  /** Adds the streams, cut to the limit, and the log to a report. */
  method ApplyStreams(r: Report, d: DenoCalls.Data, limits: Limits) returns (full: Report)
    ensures full == r.(stdout := Cut(d.stdout, limits), stderr := Cut(d.stderr, limits),
                       cut := Overflows(d.stdout, limits) || Overflows(d.stderr, limits), calls := d.records)
  {
    var stdout, cutOut := TruncateStdout(d.stdout, limits);
    var stderr, cutErr := TruncateStdout(d.stderr, limits);
    full := r.(stdout := stdout, stderr := stderr, cut := cutOut || cutErr, calls := d.records);
  }

  // ----- What holds of every run ------------------------------------------------------

  /** Both streams keep the limit on every exit. */
  lemma StreamsBound<S>(e: Engine<S>, request: Request, inputs: map<string, Json>,
                        before: SessionState<S>, after: SessionState<S>, r: Report)
    requires Runs(e, request, inputs, before, after, r)
    ensures |r.stdout| <= before.limits.maxStdoutBytes && |r.stderr| <= before.limits.maxStdoutBytes
  {
    if Refused(e, request.code).None? {
      var d := Applied(AfterReset(e, before), Executed(e, before, request, inputs).events).data;
      CutFits(d.stdout, before.limits);
      CutFits(d.stderr, before.limits);
    }
  }

  /** Code that is refused leaves the session as it was, and makes no call. */
  lemma RefusedLeavesNoTrace<S>(e: Engine<S>, request: Request, inputs: map<string, Json>,
                                before: SessionState<S>, after: SessionState<S>, r: Report)
    requires Runs(e, request, inputs, before, after, r)
    requires e.check(request.code).Some? || e.transpile(request.code).Err?
    ensures after == before && r.calls == [] && r.stdout == [] && r.stderr == [] && r.result == None
    ensures r.status != StatusOk
    ensures r.error == if e.check(request.code).Some? then e.check(request.code)
                       else Some(e.transpile(request.code).error)
  {
    ValidationIsNeverOk(r.error.value.code);
  }

  /** The events of a run, in an order in which they can happen. */
  ghost predicate CanHappen(s: DenoCalls.System, events: seq<Event>) {
    forall i :: 0 <= i < |events| ==> !events[i].Reset? && Possible(Applied(s, events[..i]), events[i])
  }

  lemma {:induction false} RunOf(s: DenoCalls.System, events: seq<Event>) returns (states: seq<DenoCalls.System>)
    requires CanHappen(s, events) && JustReset(s)
    ensures IsRun(states, events) && states[0] == s && states[|events|] == Applied(s, events)
  {
    if events == [] {
      states := [s];
    } else {
      var n := |events| - 1;
      var front := events[..n];
      CanHappenFront(s, events);
      var before := RunOf(s, front);
      var all;
      states, all := Extended(before, front, events[n]);
      hide *;
      assert events == front + [events[n]];
    }
  }

  lemma CanHappenFront(s: DenoCalls.System, events: seq<Event>)
    requires CanHappen(s, events) && events != []
    ensures var n := |events| - 1;
      && CanHappen(s, events[..n]) && !events[n].Reset? && Possible(Applied(s, events[..n]), events[n])
      && Applied(s, events) == DenoCalls.Step(Applied(s, events[..n]), events[n])
  {
    hide Possible, DenoCalls.Step;
    var front := events[..|events|-1];
    forall i | 0 <= i < |front| ensures !front[i].Reset? && Possible(Applied(s, front[..i]), front[i]) {
      assert front[..i] == events[..i];
    }
  }

  /** The report of a run that was executed. Its error is the script's own, or else the last complaint of
      its calls, or else that of a result that cannot be read; without any of these it is Ok, and gives
      the result. The status of a failed execution follows from the error code. Log and streams are those
      of the session since the run began, the streams cut to the longest part that fits. */
  lemma ReportExactly<S>(e: Engine<S>, request: Request, inputs: map<string, Json>,
                         before: SessionState<S>, after: SessionState<S>, r: Report)
    returns (states: seq<DenoCalls.System>)
    requires Runs(e, request, inputs, before, after, r)
    requires e.check(request.code).None? && e.transpile(request.code).Ok?
    requires e.inject(before.globals, inputs).1.None?
    requires CanHappen(AfterReset(e, before), Executed(e, before, request, inputs).events)
    ensures var x := Executed(e, before, request, inputs);
      var n, read := |x.events|, e.read(x.globals);
      && IsRun(states, x.events) && states[0].data.limits == before.limits && after.ops == states[n]
      && r.calls == Completions(states, x.events, n)
      && (x.error.Some? ==> r.error == x.error)
      && (forall i: nat :: x.error.None? && LastComplaint(states, x.events, n, i) ==>
            r.error == Complaint(states, x.events, i))
      && (r.status == StatusOk <==> r.error.None?)
      && (r.error.None? <==>
            x.error.None? && read.Ok? && forall i :: 0 <= i < n ==> Complaint(states, x.events, i).None?)
      && (r.error.None? ==> r.result == read.value && forall c :: c in r.calls ==> c.status == CallOk)
      && (x.error.None? && read.Err? && (forall i :: 0 <= i < n ==> Complaint(states, x.events, i).None?) ==>
            r.error == Some(read.error) && r.status == ValidationError)
      && (x.error.Some? || (exists i :: 0 <= i < n && Complaint(states, x.events, i).Some?) ==>
            StatusFits(r.status, r.error.value.code))
      && StreamsOf(states, x.events, before.limits, r)
  {
    var x := Executed(e, before, request, inputs);
    var n := |x.events|;
    var s := AfterReset(e, before);
    states := RunOf(s, x.events);
    ErrorExactly(states, x.events, n);
    CallsAreAccountedFor(states, x.events);
    if r.error.None? { OkRunHasOkRecords(states, x.events, x.error); }
    if RunError(x.error, states[n].data).Some? { StatusExactly(RunError(x.error, states[n].data).value.code); }
    StreamsReported(e, states, x, s, r, before.limits);
    hide IsRun, Completions, Complaint, CodeToStatus, StatusFits, Cut, Overflows, StreamsOf, CanHappen;
  }

  /** What both streams show: the longest leading part that fits of what was printed to each. */
  ghost predicate StreamsOf(states: seq<DenoCalls.System>, events: seq<Event>, limits: Limits, r: Report) {
    var outText, errText := PrintedTo(events, false), PrintedTo(events, true);
    && r.stdout <= Bytes(outText) && r.stderr <= Bytes(errText)
    && (r.stdout == Bytes(outText) <==> |Bytes(outText)| <= limits.maxStdoutBytes)
    && (r.stderr == Bytes(errText) <==> |Bytes(errText)| <= limits.maxStdoutBytes)
    && (r.stdout != Bytes(outText) ==> |r.stdout| + 3 >= limits.maxStdoutBytes)
    && (r.stderr != Bytes(errText) ==> |r.stderr| + 3 >= limits.maxStdoutBytes)
    && (r.cut <==> r.stdout != Bytes(outText) || r.stderr != Bytes(errText))
  }

  lemma StreamsReported<S>(e: Engine<S>, states: seq<DenoCalls.System>, x: Execution<S>, s: DenoCalls.System,
                           r: Report, limits: Limits)
    requires IsRun(states, x.events) && states[0] == s && JustReset(s)
    requires r == Concluded(e, limits, x, states[|x.events|].data)
    ensures StreamsOf(states, x.events, limits, r)
  {
    StreamsExactly(states, x.events, |x.events|);
    assert x.events[..|x.events|] == x.events;
    var d := states[|x.events|].data;
    hide IsRun;
    assert d.stdout == PrintedTo(x.events, false) && d.stderr == PrintedTo(x.events, true);
    CutFits(d.stdout, limits);
    CutFits(d.stderr, limits);
  }
}
