/** Accounting of the tool calls of a TypeScript session. Asynchronous calls finish in any
    order, also after the run that started them. */
module DenoCalls {
  import opened Core

  const LIMIT_ERROR := ErrorObject("EXTERNAL_CALLS_EXCEEDED", "External call limit exceeded.")
  const UNKNOWN_ERROR := ErrorObject("UNKNOWN_TOOL", "Function is not registered.")
  const ASYNC_ERROR := ErrorObject("TYPE_ERROR", "Tool is asynchronous; call it with await.")

  /** The per-session state that the ops share. */
  datatype Data = Data(
    registry: map<string, Tool>,
    limits: Limits,
    stdout: string,
    stderr: string,
    records: seq<CallRecord>,
    started: U32,
    error: Option<ErrorObject>)

  /** Why a call is refused, if it is the one that makes the counter `started`. */
  function Refusal(d: Data, started: U32, name: string): Option<ErrorObject> {
    if started > d.limits.maxExternalCalls then Some(LIMIT_ERROR)
    else if name !in d.registry then Some(UNKNOWN_ERROR)
    else None
  }

  function Counted(d: Data, name: string): Data {
    var started := SaturatingInc(d.started);
    var refusal := Refusal(d, started, name);
    if refusal.Some? then d.(started := started, error := refusal) else d.(started := started)
  }

  function RecordOf(tool: Tool, request: Json, outcome: Result<Json>): (r: CallRecord)
    ensures r.name == tool.capability.name && r.sideEffect == tool.capability.sideEffect && r.request == request
    ensures r.status == if outcome.Ok? then CallOk else CallError
    ensures outcome.Ok? ==> r.response == Some(outcome.value) && r.error.None?
    ensures outcome.Err? ==> r.response.None? && r.error == Some(outcome.error)
  {
    match outcome
    case Ok(value) =>
      CallRecord(tool.capability.name, tool.capability.sideEffect, CallOk, request, Some(value), None)
    case Err(error) =>
      CallRecord(tool.capability.name, tool.capability.sideEffect, CallError, request, None, Some(error))
  }

  function Finished(d: Data, record: CallRecord, outcome: Result<Json>): Data {
    d.(records := d.records + [record], error := if outcome.Err? then Some(outcome.error) else d.error)
  }

  function ResetData(registry: map<string, Tool>, limits: Limits): Data {
    Data(registry, limits, "", "", [], 0, None)
  }

  class DenoOpState {
    var registry: map<string, Tool>
    var limits: Limits
    var stdout: string
    var stderr: string
    var records: seq<CallRecord>
    var startedCalls: U32
    var error: Option<ErrorObject>

    function Value(): Data reads this {
      Data(registry, limits, stdout, stderr, records, startedCalls, error)
    }

    constructor (registry: map<string, Tool>, limits: Limits)
      ensures Value() == ResetData(registry, limits)
    {
      this.registry, this.limits := registry, limits;
      stdout, stderr, records, startedCalls, error := "", "", [], 0, None;
    }

    /** Counts the call first, then refuses it or finds its tool. */
    method PrepareToolCall(name: string) returns (r: Result<Tool>)
      modifies this
      ensures Value() == Counted(old(Value()), name)
      ensures r.Ok? <==> Refusal(old(Value()), startedCalls, name).None?
      ensures r.Ok? ==> name in registry && r.value == registry[name]
      ensures r.Err? ==> error == Some(r.error) == Refusal(old(Value()), startedCalls, name)
    {
      startedCalls := SaturatingInc(startedCalls);
      if startedCalls > limits.maxExternalCalls {
        error := Some(LIMIT_ERROR);
        return Err(LIMIT_ERROR);
      }
      if name !in registry {
        error := Some(UNKNOWN_ERROR);
        return Err(UNKNOWN_ERROR);
      }
      r := Ok(registry[name]);
    }

    method FinishToolCall(record: CallRecord, outcome: Result<Json>) returns (r: Result<Json>)
      modifies this
      ensures Value() == Finished(old(Value()), record, outcome)
      ensures r == outcome
    {
      records := records + [record];
      if outcome.Err? {
        error := Some(outcome.error);
      }
      r := outcome;
    }

    /** A synchronous call, whose handler answers `outcome`; an asynchronous tool is not called. */
    method CallToolSync(name: string, request: Json, outcome: Result<Json>) returns (r: Result<Json>)
      modifies this
      ensures Value() == CalledSync(old(Value()), name, request, outcome)
      ensures match Refusal(old(Value()), startedCalls, name)
              case Some(refusal) => r == Err(refusal)
              case None => r == if old(registry)[name].asyncMode then Err(ASYNC_ERROR) else outcome
    {
      var tool := PrepareToolCall(name);
      if tool.Err? {
        return Err(tool.error);
      }
      if tool.value.asyncMode {
        error := Some(ASYNC_ERROR);
        return Err(ASYNC_ERROR);
      }
      r := FinishToolCall(RecordOf(tool.value, request, outcome), outcome);
    }

    method ResetRunState(registry: map<string, Tool>, limits: Limits)
      modifies this
      ensures Value() == ResetData(registry, limits)
      ensures this.registry == registry && this.limits == limits
      ensures stdout == "" && stderr == "" && records == [] && startedCalls == 0 && error == None
    {
      this.registry, this.limits := registry, limits;
      stdout, stderr, records, startedCalls, error := "", "", [], 0, None;
    }

    method Print(msg: string, isErr: bool)
      modifies this
      ensures Value() == Printed(old(Value()), msg, isErr)
    {
      if isErr { stderr := stderr + msg; } else { stdout := stdout + msg; }
    }
  }

  function CalledSync(d: Data, name: string, request: Json, outcome: Result<Json>): Data {
    var counted := Counted(d, name);
    if Refusal(d, counted.started, name).Some? then counted
    else if d.registry[name].asyncMode then counted.(error := Some(ASYNC_ERROR))
    else Finished(counted, RecordOf(d.registry[name], request, outcome), outcome)
  }

  function Printed(d: Data, msg: string, isErr: bool): Data {
    if isErr then d.(stderr := d.stderr + msg) else d.(stdout := d.stdout + msg)
  }

  // ----- Interleavings --------------------------------------------------------

  datatype Event =
    | StartAsync(op: nat, name: string, request: Json)
    | FinishAsync(op: nat, outcome: Result<Json>)
    | CallSync(name: string, request: Json, outcome: Result<Json>)
    | Print(msg: string, isErr: bool)
    | Reset(registry: map<string, Tool>, limits: Limits)

  datatype Flight = Flight(tool: Tool, request: Json)

  datatype System = System(data: Data, inFlight: map<nat, Flight>)

  predicate Possible(s: System, ev: Event) {
    match ev
    case StartAsync(op, _, _) => op !in s.inFlight
    case FinishAsync(op, _) => op in s.inFlight
    case _ => true
  }

  function Step(s: System, ev: Event): System
    requires Possible(s, ev)
  {
    match ev
    case StartAsync(op, name, request) =>
      var counted := Counted(s.data, name);
      System(counted,
             if Refusal(s.data, counted.started, name).Some? then s.inFlight
             else s.inFlight[op := Flight(s.data.registry[name], request)])
    case FinishAsync(op, outcome) =>
      System(Finished(s.data, RecordOf(s.inFlight[op].tool, s.inFlight[op].request, outcome), outcome),
             s.inFlight - {op})
    case CallSync(name, request, outcome) => s.(data := CalledSync(s.data, name, request, outcome))
    case Print(msg, isErr) => s.(data := Printed(s.data, msg, isErr))
    case Reset(registry, limits) => s.(data := ResetData(registry, limits))
  }

  /** A run since a reset: the system right after it, and the events from then on, none of them a reset. */
  ghost predicate IsRun(states: seq<System>, events: seq<Event>) {
    && |states| == |events| + 1
    && states[0].data.records == [] && states[0].data.started == 0 && states[0].data.error == None
    && forall i :: 0 <= i < |events| ==>
         !events[i].Reset? && Possible(states[i], events[i]) && states[i+1] == Step(states[i], events[i])
  }

  // What an event means, seen from outside.

  predicate IsCall(ev: Event) {
    ev.StartAsync? || ev.CallSync?
  }

  /** The number of calls requested by the given events. */
  function Calls(events: seq<Event>): nat {
    if events == [] then 0
    else Calls(events[..|events|-1]) + (if IsCall(events[|events|-1]) then 1 else 0)
  }

  /** The i-th event is a call that was let through. The count of calls stops at the largest `u32`. */
  ghost predicate Admitted(states: seq<System>, events: seq<Event>, i: nat)
    requires i < |events| <= |states|
  {
    IsCall(events[i]) && events[i].name in states[i].data.registry
    && Min(Calls(events[..i]) + 1, U32_MAX) <= states[i].data.limits.maxExternalCalls
  }

  ghost function AdmittedCount(states: seq<System>, events: seq<Event>, k: nat): nat
    requires k <= |events| <= |states|
  {
    if k == 0 then 0 else AdmittedCount(states, events, k - 1) + (if Admitted(states, events, k - 1) then 1 else 0)
  }

  /** The audit record of the i-th event, if it completes a call. */
  ghost function Completion(states: seq<System>, events: seq<Event>, i: nat): Option<CallRecord>
    requires i < |events| <= |states|
  {
    match events[i]
    case FinishAsync(op, outcome) =>
      if op in states[i].inFlight then
        Some(RecordOf(states[i].inFlight[op].tool, states[i].inFlight[op].request, outcome))
      else None
    case CallSync(name, request, outcome) =>
      if Admitted(states, events, i) && !states[i].data.registry[name].asyncMode then
        Some(RecordOf(states[i].data.registry[name], request, outcome))
      else None
    case _ => None
  }

  ghost function Completions(states: seq<System>, events: seq<Event>, k: nat): seq<CallRecord>
    requires k <= |events| <= |states|
  {
    if k == 0 then []
    else
      var c := Completion(states, events, k - 1);
      Completions(states, events, k - 1) + (if c.Some? then [c.value] else [])
  }

  /** The i-th event is a call that was refused, or an awaited-only tool called synchronously,
      or a completion with an error. */
  ghost predicate WentWrong(states: seq<System>, events: seq<Event>, i: nat)
    requires i < |events| <= |states|
  {
    || (IsCall(events[i]) && !Admitted(states, events, i))
    || (events[i].CallSync? && Admitted(states, events, i) && states[i].data.registry[events[i].name].asyncMode)
    || (Completion(states, events, i).Some? && Completion(states, events, i).value.status == CallError)
  }

  ghost predicate Accounts(states: seq<System>, events: seq<Event>, k: nat)
    requires k <= |events| && |states| == |events| + 1
  {
    var d := states[k].data;
    && d.registry == states[0].data.registry && d.limits == states[0].data.limits
    && d.started == Min(Calls(events[..k]), U32_MAX)
    && d.records == Completions(states, events, k)
    && (d.error.Some? <==> exists i :: 0 <= i < k && WentWrong(states, events, i))
  }

  lemma CallCount(events: seq<Event>, k: nat)
    requires 0 < k <= |events|
    ensures Calls(events[..k]) == Calls(events[..k-1]) + (if IsCall(events[k-1]) then 1 else 0)
  {
    assert events[..k][..k-1] == events[..k-1];
  }

  lemma RefusedExactly(states: seq<System>, events: seq<Event>, k: nat)
    requires IsRun(states, events) && k < |events| && IsCall(events[k]) && Accounts(states, events, k)
    ensures Refusal(states[k].data, SaturatingInc(states[k].data.started), events[k].name).None?
       <==> Admitted(states, events, k)
  {}

  lemma {:induction false} RunAccounts(states: seq<System>, events: seq<Event>, k: nat)
    requires IsRun(states, events) && k <= |events|
    ensures Accounts(states, events, k)
  {
    if k > 0 {
      hide WentWrong, IsRun, Calls, Completion, Step;
      RunAccounts(states, events, k - 1);
      CountStep(states, events, k);
      RecordsStep(states, events, k);
      ErrorStep(states, events, k);
    }
  }

  lemma CountStep(states: seq<System>, events: seq<Event>, k: nat)
    requires IsRun(states, events) && 0 < k <= |events| && Accounts(states, events, k - 1)
    ensures states[k].data.registry == states[0].data.registry && states[k].data.limits == states[0].data.limits
    ensures states[k].data.started == Min(Calls(events[..k]), U32_MAX)
  {
    CallCount(events, k);
    hide Calls, WentWrong, Completions, RecordOf;
  }

  lemma RecordsStep(states: seq<System>, events: seq<Event>, k: nat)
    requires IsRun(states, events) && 0 < k <= |events| && Accounts(states, events, k - 1)
    ensures states[k].data.records == Completions(states, events, k)
  {
    if IsCall(events[k-1]) { RefusedExactly(states, events, k - 1); }
    hide Calls, WentWrong, Admitted, Refusal, RecordOf;
  }

  lemma ErrorStep(states: seq<System>, events: seq<Event>, k: nat)
    requires IsRun(states, events) && 0 < k <= |events| && Accounts(states, events, k - 1)
    ensures states[k].data.error.Some? <==> states[k-1].data.error.Some? || WentWrong(states, events, k - 1)
  {
    if IsCall(events[k-1]) { RefusedExactly(states, events, k - 1); }
  }

  lemma {:induction false} AdmittedBound(states: seq<System>, events: seq<Event>, k: nat)
    requires IsRun(states, events) && k <= |events|
    requires states[0].data.limits.maxExternalCalls < U32_MAX
    ensures AdmittedCount(states, events, k) <= Min(Calls(events[..k]), states[0].data.limits.maxExternalCalls)
  {
    if k > 0 {
      AdmittedBound(states, events, k - 1);
      RunAccounts(states, events, k - 1);
      CallCount(events, k);
    }
  }

  /** Since a reset, in every interleaving: the records are the completions in the order they
      happened; the error is set exactly when some call was refused or failed; and below the
      saturation point of the counter at most `maxExternalCalls` calls are let through. */
  lemma CallsAreAccountedFor(states: seq<System>, events: seq<Event>)
    requires IsRun(states, events)
    ensures var k, d := |events|, states[|events|].data;
      && d.records == Completions(states, events, k)
      && (d.error.Some? <==> exists i :: 0 <= i < k && WentWrong(states, events, i))
      && (d.limits.maxExternalCalls < U32_MAX ==> AdmittedCount(states, events, k) <= d.limits.maxExternalCalls)
  {
    RunAccounts(states, events, |events|);
    if states[0].data.limits.maxExternalCalls < U32_MAX {
      AdmittedBound(states, events, |events|);
    }
  }

  /** What the i-th event complains about, if anything: a call over the limit, or else of an unknown
      tool, or else of an asynchronous tool without await, or a tool that fails. */
  ghost function Complaint(states: seq<System>, events: seq<Event>, i: nat): Option<ErrorObject>
    requires i < |events| <= |states|
  {
    if IsCall(events[i]) && Min(Calls(events[..i]) + 1, U32_MAX) > states[0].data.limits.maxExternalCalls then
      Some(LIMIT_ERROR)
    else if IsCall(events[i]) && events[i].name !in states[0].data.registry then Some(UNKNOWN_ERROR)
    else
      match events[i]
      case CallSync(name, _, outcome) =>
        if states[0].data.registry[name].asyncMode then Some(ASYNC_ERROR)
        else if outcome.Err? then Some(outcome.error) else None
      case FinishAsync(_, outcome) => if outcome.Err? then Some(outcome.error) else None
      case _ => None
  }

  /** The i-th event is the last one that complains. */
  ghost predicate LastComplaint(states: seq<System>, events: seq<Event>, k: nat, i: nat)
    requires k <= |events| <= |states|
  {
    && i < k && Complaint(states, events, i).Some?
    && forall j :: i < j < k ==> Complaint(states, events, j).None?
  }

  lemma ComplaintStep(states: seq<System>, events: seq<Event>, k: nat)
    requires IsRun(states, events) && 0 < k <= |events| && Accounts(states, events, k - 1)
    ensures states[k].data.error
         == if Complaint(states, events, k - 1).Some? then Complaint(states, events, k - 1) else states[k-1].data.error
  {
    hide WentWrong, Completions, RecordOf;
    assert Accounts(states, events, k - 1);
    assert states[k] == Step(states[k-1], events[k-1]);
  }

  /** The error that a run is left with is the complaint of the last event that had one, and there is
      none exactly if no event had. */
  lemma {:induction false} ErrorExactly(states: seq<System>, events: seq<Event>, k: nat)
    requires IsRun(states, events) && k <= |events|
    ensures states[k].data.error.None? <==> forall i :: 0 <= i < k ==> Complaint(states, events, i).None?
    ensures forall i: nat :: LastComplaint(states, events, k, i) ==>
      states[k].data.error == Complaint(states, events, i)
  {
    if k > 0 {
      hide Accounts, IsRun, Complaint;
      ErrorExactly(states, events, k - 1);
      RunAccounts(states, events, k - 1);
      RunLength(states, events);
      ComplaintStep(states, events, k);
      forall i: nat | LastComplaint(states, events, k, i) ensures states[k].data.error == Complaint(states, events, i) {
        if i < k - 1 { assert LastComplaint(states, events, k - 1, i); }
      }
    } else {
      NoErrorYet(states, events);
    }
  }

  lemma RunLength(states: seq<System>, events: seq<Event>)
    requires IsRun(states, events)
    ensures |states| == |events| + 1
  {}

  lemma NoErrorYet(states: seq<System>, events: seq<Event>)
    requires IsRun(states, events)
    ensures states[0].data.error.None?
  {}

  /** Everything printed to one of the two streams. */
  function PrintedTo(events: seq<Event>, isErr: bool): string {
    if events == [] then ""
    else
      var last := events[|events|-1];
      PrintedTo(events[..|events|-1], isErr) + (if last.Print? && last.isErr == isErr then last.msg else "")
  }

  /** The streams hold exactly what was printed to each, in order, and nothing else writes to them. */
  lemma {:induction false} StreamsExactly(states: seq<System>, events: seq<Event>, k: nat)
    requires IsRun(states, events) && k <= |events|
    ensures states[k].data.stdout == states[0].data.stdout + PrintedTo(events[..k], false)
    ensures states[k].data.stderr == states[0].data.stderr + PrintedTo(events[..k], true)
  {
    if k > 0 {
      StreamsExactly(states, events, k - 1);
      assert events[..k][..k-1] == events[..k-1];
      StreamStep(states[k-1], events[k-1]);
      assert states[k] == Step(states[k-1], events[k-1]);
      hide Step, Possible;
    } else {
      assert events[..0] == [];
    }
  }

  lemma StreamStep(s: System, ev: Event)
    requires Possible(s, ev) && !ev.Reset?
    ensures var d, d' := s.data, Step(s, ev).data;
      && d'.stdout == d.stdout + (if ev.Print? && !ev.isErr then ev.msg else "")
      && d'.stderr == d.stderr + (if ev.Print? && ev.isErr then ev.msg else "")
  {
    hide RecordOf, Refusal;
  }

  lemma {:induction false} CompletionStatus(states: seq<System>, events: seq<Event>, k: nat)
    requires k <= |events| <= |states|
    requires forall i :: 0 <= i < k ==> !WentWrong(states, events, i)
    ensures forall r :: r in Completions(states, events, k) ==> r.status == CallOk
  {
    if k > 0 {
      CompletionStatus(states, events, k - 1);
      assert !WentWrong(states, events, k - 1);
    }
  }

  /** The error a run reports: that of the script, else the one the calls left behind. */
  function RunError(scriptError: Option<ErrorObject>, d: Data): Option<ErrorObject> {
    if scriptError.Some? then scriptError else d.error
  }

  /** A run that ends Ok has only Ok records, even if the script caught every exception. */
  lemma OkRunHasOkRecords(states: seq<System>, events: seq<Event>, scriptError: Option<ErrorObject>)
    requires IsRun(states, events)
    requires RunError(scriptError, states[|events|].data).None?
    ensures forall r :: r in states[|events|].data.records ==> r.status == CallOk
  {
    CallsAreAccountedFor(states, events);
    CompletionStatus(states, events, |events|);
  }

  // ----- Late completions ---------------------------------------------------------

  function Load(s: System): nat {
    |s.data.records| + |s.inFlight|
  }

  lemma StepLoad(s: System, ev: Event)
    requires Possible(s, ev) && !ev.Reset?
    ensures !IsCall(ev) ==> Load(Step(s, ev)) <= Load(s)
    ensures IsCall(ev) && Refusal(s.data, SaturatingInc(s.data.started), ev.name).None? ==>
      Load(Step(s, ev)) <= Load(s) + 1
    ensures IsCall(ev) && Refusal(s.data, SaturatingInc(s.data.started), ev.name).Some? ==> Load(Step(s, ev)) == Load(s)
  {
    match ev
    case FinishAsync(op, _) =>
      assert (s.inFlight - {op}).Keys == s.inFlight.Keys - {op};
    case StartAsync(op, name, request) =>
      if name in s.data.registry {
        assert s.inFlight[op := Flight(s.data.registry[name], request)].Keys == s.inFlight.Keys + {op};
      }
    case _ =>
  }

  lemma {:induction false} FlightsConserved(states: seq<System>, events: seq<Event>, k: nat)
    requires IsRun(states, events) && k <= |events|
    ensures Load(states[k]) <= |states[0].inFlight| + AdmittedCount(states, events, k)
  {
    if k > 0 {
      hide Load, Step, Possible, Admitted;
      FlightsConserved(states, events, k - 1);
      LoadGrows(states, events, k);
    }
  }

  lemma LoadGrows(states: seq<System>, events: seq<Event>, k: nat)
    requires IsRun(states, events) && 0 < k <= |events|
    ensures Load(states[k]) <= Load(states[k-1]) + (if Admitted(states, events, k - 1) then 1 else 0)
  {
    hide Load, Step, Refusal, Admitted;
    StepLoad(states[k-1], events[k-1]);
    if IsCall(events[k-1]) {
      RunAccounts(states, events, k - 1);
      RefusedExactly(states, events, k - 1);
    }
  }

  /** A run may report more records than its limit, but only by the calls of earlier runs
      that were still in flight when it began. */
  lemma RecordsBound(states: seq<System>, events: seq<Event>)
    requires IsRun(states, events)
    requires states[0].data.limits.maxExternalCalls < U32_MAX
    ensures |states[|events|].data.records|
         <= states[0].data.limits.maxExternalCalls + |states[0].inFlight|
  {
    FlightsConserved(states, events, |events|);
    AdmittedBound(states, events, |events|);
  }

  /** Without tools nothing is admitted. */
  lemma {:induction false} NothingAdmitted(states: seq<System>, events: seq<Event>, k: nat)
    requires IsRun(states, events) && k <= |events| && states[0].data.registry == map[]
    ensures AdmittedCount(states, events, k) == 0
  {
    if k > 0 {
      NothingAdmitted(states, events, k - 1);
      RunAccounts(states, events, k - 1);
    }
  }

  /** A session right after a reset, with whatever earlier runs left in flight. */
  ghost predicate JustReset(s: System) {
    s.data == ResetData(s.data.registry, s.data.limits)
  }

  /** Every run from here keeps its records within the limit. */
  ghost predicate KeepsItsLimit(s: System) {
    forall states: seq<System>, events: seq<Event> :: IsRun(states, events) && states[0] == s ==>
      |states[|events|].data.records| <= s.data.limits.maxExternalCalls
  }

  /** When the records of a run keep the limit, whatever happens in it: exactly when either nothing
      was left in flight and the counter cannot saturate, or no tool is registered and what was left
      in flight is itself within the limit. */
  lemma LimitIsKeptExactly(s: System)
    requires JustReset(s)
    ensures KeepsItsLimit(s)
       <==> || (s.inFlight == map[] && s.data.limits.maxExternalCalls < U32_MAX)
            || (s.data.registry == map[] && |s.inFlight| <= s.data.limits.maxExternalCalls)
  {
    var limit := s.data.limits.maxExternalCalls;
    if s.data.registry == map[] {
      forall states: seq<System>, events: seq<Event> | IsRun(states, events) && states[0] == s
        ensures |states[|events|].data.records| <= |s.inFlight|
      {
        FlightsConserved(states, events, |events|);
        NothingAdmitted(states, events, |events|);
      }
      if |s.inFlight| > limit {
        var states, events := FinishAll(s, |s.inFlight|);
        assert IsRun(states, events);
      }
    } else {
      if s.inFlight == map[] && limit < U32_MAX {
        forall states: seq<System>, events: seq<Event> | IsRun(states, events) && states[0] == s
          ensures |states[|events|].data.records| <= limit
        {
          RecordsBound(states, events);
        }
      } else {
        var states, events := Exceed(s);
        assert IsRun(states, events);
      }
    }
  }

  lemma Extended(states: seq<System>, events: seq<Event>, ev: Event) returns (states': seq<System>, events': seq<Event>)
    requires IsRun(states, events) && !ev.Reset? && Possible(states[|events|], ev)
    ensures IsRun(states', events') && states'[0] == states[0] && events' == events + [ev]
    ensures states'[|events'|] == Step(states[|events|], ev)
  {
    states', events' := states + [Step(states[|events|], ev)], events + [ev];
    hide Step, Possible;
    assert states'[..|states|] == states && events'[..|events|] == events;
    forall i | 0 <= i < |events'|
      ensures !events'[i].Reset? && Possible(states'[i], events'[i]) && states'[i+1] == Step(states'[i], events'[i])
    {
      if i < |events| {
        assert states'[i] == states[i] && states'[i+1] == states[i+1] && events'[i] == events[i];
      }
    }
  }

  /** The first n calls in flight finish. */
  lemma {:induction false} FinishAll(s: System, n: nat) returns (states: seq<System>, events: seq<Event>)
    requires JustReset(s) && n <= |s.inFlight|
    ensures IsRun(states, events) && states[0] == s
    ensures |states[|events|].data.records| == n && |states[|events|].inFlight| == |s.inFlight| - n
  {
    if n == 0 {
      states, events := [s], [];
    } else {
      states, events := FinishAll(s, n - 1);
      var last := states[|events|];
      assert last.inFlight != map[];
      var op :| op in last.inFlight;
      assert (last.inFlight - {op}).Keys == last.inFlight.Keys - {op};
      states, events := Extended(states, events, FinishAsync(op, Ok(JNull)));
    }
  }

  /** n calls to a registered tool, each started and finished. */
  lemma {:induction false} CallAll(s: System, name: string, unused: nat, n: nat)
    returns (states: seq<System>, events: seq<Event>)
    requires JustReset(s) && name in s.data.registry && unused !in s.inFlight
    requires n <= s.data.limits.maxExternalCalls || s.data.limits.maxExternalCalls == U32_MAX
    ensures IsRun(states, events) && states[0] == s
    ensures var last := states[|events|];
      && last.inFlight == s.inFlight && |last.data.records| == n && last.data.started == Min(n, U32_MAX)
      && last.data.registry == s.data.registry && last.data.limits == s.data.limits
  {
    if n == 0 {
      states, events := [s], [];
    } else {
      states, events := CallAll(s, name, unused, n - 1);
      var before := states[|events|];
      states, events := Extended(states, events, StartAsync(unused, name, JNull));
      var started := states[|events|];
      assert Refusal(before.data, SaturatingInc(before.data.started), name).None?;
      assert unused in started.inFlight;
      states, events := Extended(states, events, FinishAsync(unused, Ok(JNull)));
      assert states[|events|].inFlight == s.inFlight;
    }
  }

  /** A number above all that are in use. */
  lemma {:induction false} Above(used: set<nat>) returns (op: nat)
    ensures forall x :: x in used ==> x < op
  {
    if used == {} {
      op := 0;
    } else {
      var x :| x in used;
      op := Above(used - {x});
      assert used == (used - {x}) + {x};
      if op <= x { op := x + 1; }
    }
  }

  /** With a tool registered, and a call left in flight or a counter that saturates. */
  lemma Exceed(s: System) returns (states: seq<System>, events: seq<Event>)
    requires JustReset(s) && s.data.registry != map[]
    requires s.inFlight != map[] || s.data.limits.maxExternalCalls == U32_MAX
    ensures IsRun(states, events) && states[0] == s
    ensures |states[|events|].data.records| > s.data.limits.maxExternalCalls
  {
    var limit: nat := s.data.limits.maxExternalCalls;
    var name :| name in s.data.registry;
    var op := Above(s.inFlight.Keys);
    if limit == U32_MAX {
      states, events := CallAll(s, name, op, limit + 1);
    } else {
      states, events := CallAll(s, name, op, limit);
      var late :| late in s.inFlight;
      states, events := Extended(states, events, FinishAsync(late, Ok(JNull)));
    }
  }

  /** The history of a session: it begins with nothing in flight, and every run resets it to the one
      registry of its worker. */
  ghost predicate IsHistory(states: seq<System>, events: seq<Event>) {
    && |states| == |events| + 1
    && JustReset(states[0]) && states[0].inFlight == map[]
    && forall i :: 0 <= i < |events| ==>
         && Possible(states[i], events[i]) && states[i+1] == Step(states[i], events[i])
         && (events[i].Reset? ==> events[i].registry == states[i].data.registry)
  }

  /** The registry never changes, and without tools nothing is ever in flight. */
  lemma {:induction false} HistoryFlights(states: seq<System>, events: seq<Event>, k: nat)
    requires IsHistory(states, events) && k <= |events|
    ensures states[k].data.registry == states[0].data.registry
    ensures states[k].data.registry == map[] ==> states[k].inFlight == map[]
  {
    if k > 0 {
      HistoryFlights(states, events, k - 1);
      assert states[k] == Step(states[k-1], events[k-1]);
    }
  }

  /** In a session as it really runs, the records of the next run keep the limit, whatever happens in
      it, exactly when no tool is registered, or nothing was left in flight and the counter cannot
      saturate. */
  lemma LimitIsKeptInSessions(states: seq<System>, events: seq<Event>, k: nat)
    requires IsHistory(states, events) && k <= |events| && JustReset(states[k])
    ensures var s := states[k];
      KeepsItsLimit(s)
      <==> s.data.registry == map[] || (s.inFlight == map[] && s.data.limits.maxExternalCalls < U32_MAX)
  {
    HistoryFlights(states, events, k);
    LimitIsKeptExactly(states[k]);
  }

  /** One run starts a call and does not wait for it; the next one, with a limit of zero, reports its
      record. */
  lemma LateRecordExample(tool: Tool, name: string, request: Json, value: Json, limits: Limits)
    returns (states: seq<System>)
    requires limits.maxExternalCalls == 0
    ensures IsHistory(states, [StartAsync(0, name, request),
                               Reset(map[name := tool], limits),
                               FinishAsync(0, Ok(value))])
    ensures JustReset(states[2]) && states[2].data.limits == limits
    ensures |states[3].data.records| > limits.maxExternalCalls
  {
    var registry := map[name := tool];
    var s0 := System(ResetData(registry, limits.(maxExternalCalls := 1)), map[]);
    var s1 := Step(s0, StartAsync(0, name, request));
    assert s1.inFlight == map[0 := Flight(tool, request)];
    var s2 := Step(s1, Reset(registry, limits));
    states := [s0, s1, s2, Step(s2, FinishAsync(0, Ok(value)))];
  }
}
