/** The host loop of the Monty backend: it drives the Python VM, starts tool
    calls, and hands finished asynchronous calls back to the VM.

    The VM is any function from a state and an answer to the next request, so a
    statement about all machines covers every program. Tool handlers are an
    oracle indexed by the ordinal of the call. The order in which asynchronous
    calls finish is the label `arrived` of a step. */
module MontyDispatcher {
  import opened Core

  type CallId = U32

  datatype ExtResult = Return(value: Json) | Raise(error: ErrorObject)

  /** A finished call: the VM's id for it, what the VM gets, what the audit gets. */
  datatype Item = Item(id: CallId, result: ExtResult, record: CallRecord)

  /** A call requested by the VM; `context` is its converted arguments. */
  datatype Call = Call(id: CallId, name: string, context: Result<Json>)

  datatype Progress<+S, +V> =
    | Complete(repl: S, value: V)
    | NameLookup(vm: S, name: string)
    | FunctionCall(vm: S, call: Call)
    | ResolveFutures(vm: S, ids: seq<CallId>)
    | OsCall(vm: S, denial: ErrorObject)
    | Failed(repl: S, error: ErrorObject)

  datatype Answer =
    | Looked(tool: Option<Tool>)
    | Pending
    | Direct(result: ExtResult)
    | Resolved(results: seq<(CallId, ExtResult)>)

  /** What the VM does next, and what it printed on the way there. */
  datatype Yield<+S, +V> = Yield(progress: Progress<S, V>, printed: string)

  datatype Machine<!S, !V> = Machine(
    resume: (S, Answer) -> Yield<S, V>,
    intoRepl: S -> S)

  datatype Host = Host(
    registry: map<string, Tool>,
    maxCalls: U32,
    world: (nat, string, Json) -> Result<Json>,
    representable: Json -> bool)

  datatype Outcome<+S, +V> =
    | Completed(repl: S, value: V, stdout: string, records: seq<CallRecord>)
    | Errored(repl: S, error: ErrorObject, stdout: string, records: seq<CallRecord>)

  const LIMIT_ERROR := ErrorObject("EXTERNAL_CALLS_EXCEEDED", "External call limit exceeded.")
  const UNKNOWN_ERROR := ErrorObject("UNKNOWN_TOOL", "Function is not registered in this session.")
  const STUCK_ERROR :=
    ErrorObject("RUNTIME_ERROR", "Monty requested async future results but no host futures are pending.")
  const UNREPRESENTABLE := ErrorObject("TYPE_ERROR", "JSON number cannot be represented in Monty.")

  /** One tool invocation, from the handler's answer to the VM's and the audit's view of it. */
  function RunTool(host: Host, ordinal: nat, id: CallId, tool: Tool, context: Json): (item: Item)
    ensures item.id == id && item.record.name == tool.capability.name && item.record.request == context
    ensures item.record.status == CallOk <==> host.world(ordinal, tool.capability.name, context).Ok?
    ensures item.record.sideEffect == tool.capability.sideEffect
    ensures item.result.Return? ==> item.record.status == CallOk && item.record.response == Some(item.result.value)
    // A failure is raised in the program and logged, as a denial if it is one.
    ensures item.record.status != CallOk ==>
      && item.record.error.Some? && item.result == Raise(item.record.error.value)
      && host.world(ordinal, tool.capability.name, context) == Err(item.record.error.value)
      && (item.record.status == CallDenied <==> item.record.error.value.code == "PERMISSION_DENIED")
    // An answer is logged even if the program cannot take it.
    ensures item.record.status == CallOk ==>
      && item.record.error.None? && item.record.response.Some?
      && (item.result.Raise? <==> !host.representable(item.record.response.value))
  {
    match host.world(ordinal, tool.capability.name, context)
    case Ok(value) =>
      Item(id,
           if host.representable(value) then Return(value) else Raise(UNREPRESENTABLE),
           CallRecord(tool.capability.name, tool.capability.sideEffect, CallOk, context, Some(value), None))
    case Err(error) =>
      Item(id,
           Raise(error),
           CallRecord(tool.capability.name, tool.capability.sideEffect,
                      if error.code == "PERMISSION_DENIED" then CallDenied else CallError,
                      context, None, Some(error)))
  }

  // ----- The transition system -------------------------------------------

  /** The host's books. The code keeps the first five as local variables; the
      rest is history that the properties below speak about. */
  datatype Books = Books(
    started: U32,
    pending: multiset<Item>,             // in flight, in no order
    ready: seq<Item>,                    // finished, not asked for yet
    records: seq<CallRecord>,            // the audit log
    calls: seq<Call>,                    // every FunctionCall step
    refused: nat,                        // calls counted but never started
    issued: seq<Item>,                   // asynchronous calls started
    awaited: seq<Item>,                  // asynchronous calls handed to the VM
    direct: seq<Item>,                   // synchronous calls handed to the VM
    delivered: seq<Item>,                // both, in order
    told: seq<(CallId, ExtResult)>,      // what the VM was told, in order
    resolves: nat)                       // every ResolveFutures step

  datatype State<+S, +V> = State(
    progress: Progress<S, V>,
    stdout: string,
    books: Books,
    exit: Option<Outcome<S, V>>)

  function Wanted(items: seq<Item>, ids: seq<CallId>): seq<Item> {
    if items == [] then []
    else
      var n := |items| - 1;
      if items[n].id in ids then Wanted(items[..n], ids) + [items[n]] else Wanted(items[..n], ids)
  }

  function Unwanted(items: seq<Item>, ids: seq<CallId>): seq<Item> {
    if items == [] then []
    else
      var n := |items| - 1;
      if items[n].id in ids then Unwanted(items[..n], ids) else Unwanted(items[..n], ids) + [items[n]]
  }

  function Records(items: seq<Item>): seq<CallRecord> {
    seq(|items|, i requires 0 <= i < |items| => items[i].record)
  }

  function Results(items: seq<Item>): seq<(CallId, ExtResult)> {
    seq(|items|, i requires 0 <= i < |items| => (items[i].id, items[i].result))
  }

  const NEW_BOOKS := Books(0, multiset{}, [], [], [], 0, [], [], [], [], [], 0)

  function CountCall(b: Books, call: Call): Books {
    b.(started := SaturatingInc(b.started), calls := b.calls + [call])
  }

  function BookRefusal(b: Books): Books {
    b.(refused := b.refused + 1)
  }

  function BookAsync(b: Books, item: Item): Books {
    b.(pending := b.pending + multiset{item}, issued := b.issued + [item])
  }

  function BookDirect(b: Books, item: Item): Books {
    b.(records := b.records + [item.record],
       direct := b.direct + [item],
       delivered := b.delivered + [item],
       told := b.told + [(item.id, item.result)])
  }

  /** What one ResolveFutures step hands over: ready results first, then arrivals. */
  function Hits(b: Books, ids: seq<CallId>, arrived: seq<Item>): seq<Item> {
    Wanted(b.ready, ids) + Wanted(arrived, ids)
  }

  function BookResolve(b: Books, ids: seq<CallId>, arrived: seq<Item>): Books {
    var hits := Hits(b, ids, arrived);
    b.(pending := b.pending - multiset(arrived),
       ready := Unwanted(b.ready, ids) + Unwanted(arrived, ids),
       records := b.records + Records(hits),
       awaited := b.awaited + hits,
       delivered := b.delivered + hits,
       told := b.told + Results(hits),
       resolves := b.resolves + 1)
  }

  /** Futures that finished while the VM waited for `ids`: up to the first wanted one, or all. */
  ghost predicate UpToFirst(ids: seq<CallId>, pending: multiset<Item>, arrived: seq<Item>) {
    && multiset(arrived) <= pending
    && (forall i :: 0 <= i < |arrived| - 1 ==> arrived[i].id !in ids)
    && ((arrived != [] && arrived[|arrived|-1].id in ids) || multiset(arrived) == pending)
  }

  /** The order in which futures may finish: none is waited for when a wanted result is ready. */
  ghost predicate LegalArrivals(b: Books, ids: seq<CallId>, arrived: seq<Item>) {
    if Wanted(b.ready, ids) == [] then UpToFirst(ids, b.pending, arrived) else arrived == []
  }

  ghost predicate Legal<S, V>(s: State<S, V>, arrived: seq<Item>) {
    if s.progress.ResolveFutures? then LegalArrivals(s.books, s.progress.ids, arrived) else arrived == []
  }

  function Initial<S, V>(start: Yield<S, V>): State<S, V> {
    State(start.progress, start.printed, NEW_BOOKS, None)
  }

  function Stop<S, V>(s: State<S, V>, repl: S, error: ErrorObject): State<S, V> {
    s.(exit := Some(Errored(repl, error, s.stdout, s.books.records)))
  }

  function Feed<S, V>(s: State<S, V>, vm: Machine<S, V>, at: S, answer: Answer): State<S, V> {
    var next := vm.resume(at, answer);
    s.(progress := next.progress, stdout := s.stdout + next.printed)
  }

  /** Whether, and why, the host refuses a call that makes the counter `started`. */
  function Refusal(host: Host, call: Call, started: U32): Option<ErrorObject> {
    if started > host.maxCalls then Some(LIMIT_ERROR)
    else if call.name !in host.registry then Some(UNKNOWN_ERROR)
    else if call.context.Err? then Some(call.context.error)
    else None
  }

  predicate Callable(host: Host, call: Call) {
    call.name in host.registry && call.context.Ok?
  }

  function ItemOf(host: Host, ordinal: nat, call: Call): Item
    requires Callable(host, call)
  {
    RunTool(host, ordinal, call.id, host.registry[call.name], call.context.value)
  }

  function AdvanceCall<S, V>(host: Host, vm: Machine<S, V>, s: State<S, V>): State<S, V>
    requires s.progress.FunctionCall?
  {
    var call := s.progress.call;
    var counted := CountCall(s.books, call);
    match Refusal(host, call, counted.started)
    case Some(error) => Stop(s.(books := BookRefusal(counted)), vm.intoRepl(s.progress.vm), error)
    case None =>
      var item := ItemOf(host, |s.books.calls|, call);
      if host.registry[call.name].asyncMode then
        Feed(s.(books := BookAsync(counted, item)), vm, s.progress.vm, Pending)
      else
        Feed(s.(books := BookDirect(counted, item)), vm, s.progress.vm, Direct(item.result))
  }

  function AdvanceResolve<S, V>(vm: Machine<S, V>, s: State<S, V>, arrived: seq<Item>): State<S, V>
    requires s.progress.ResolveFutures?
  {
    var hits := Hits(s.books, s.progress.ids, arrived);
    var s1 := s.(books := BookResolve(s.books, s.progress.ids, arrived));
    if hits == [] then Stop(s1, vm.intoRepl(s.progress.vm), STUCK_ERROR)
    else Feed(s1, vm, s.progress.vm, Resolved(Results(hits)))
  }

  /** One turn of the loop. */
  function Advance<S, V>(host: Host, vm: Machine<S, V>, s: State<S, V>, arrived: seq<Item>): State<S, V> {
    match s.progress
    case Complete(repl, value) => s.(exit := Some(Completed(repl, value, s.stdout, s.books.records)))
    case Failed(repl, error) => Stop(s, repl, error)
    case NameLookup(at, name) =>
      Feed(s, vm, at, Looked(if name in host.registry then Some(host.registry[name]) else None))
    case OsCall(at, denial) => Feed(s, vm, at, Direct(Raise(denial)))
    case FunctionCall(_, _) => AdvanceCall(host, vm, s)
    case ResolveFutures(_, _) => AdvanceResolve(vm, s, arrived)
  }

  /** A run: the states passed through, and the arrivals of each turn. */
  ghost predicate IsRun<S, V>(host: Host, vm: Machine<S, V>, start: Yield<S, V>,
                              states: seq<State<S, V>>, arrivals: seq<seq<Item>>)
  {
    && |states| == |arrivals| + 1
    && states[0] == Initial(start)
    && forall i :: 0 <= i < |arrivals| ==>
         && states[i].exit.None? && Legal(states[i], arrivals[i])
         && states[i+1] == Advance(host, vm, states[i], arrivals[i])
  }

  lemma ExtendRun<S, V>(host: Host, vm: Machine<S, V>, start: Yield<S, V>,
                        states: seq<State<S, V>>, arrivals: seq<seq<Item>>, arrived: seq<Item>)
    requires IsRun(host, vm, start, states, arrivals)
    requires states[|states|-1].exit.None? && Legal(states[|states|-1], arrived)
    ensures IsRun(host, vm, start, states + [Advance(host, vm, states[|states|-1], arrived)], arrivals + [arrived])
  {
    hide Advance, Legal;
  }

  // ----- Conservation ------------------------------------------------------

  ghost predicate Balanced(b: Books) {
    // Every asynchronous call is in exactly one place.
    && multiset(b.issued) == b.pending + multiset(b.ready) + multiset(b.awaited)
    && multiset(b.delivered) == multiset(b.awaited) + multiset(b.direct)
    // The audit log lists exactly the deliveries, in delivery order.
    && b.records == Records(b.delivered)
    // The VM was told exactly the delivered outcomes, each under its own id.
    && b.told == Results(b.delivered)
    && b.started == Min(|b.calls|, U32_MAX)
  }

  /** Calls that are delivered, in flight, finished, or refused. */
  function Accounted(b: Books): nat {
    |b.records| + |b.pending| + |b.ready| + b.refused
  }

  ghost predicate Conserved<S, V>(s: State<S, V>) {
    && Balanced(s.books)
    && |s.books.calls| == Accounted(s.books)
    && s.books.refused <= (if s.exit.Some? then 1 else 0)
    // An exit reports the audit log.
    && (s.exit.Some? ==> s.exit.value.records == s.books.records && s.exit.value.stdout == s.stdout)
  }

  lemma {:induction false} WantedSplit(items: seq<Item>, ids: seq<CallId>)
    ensures multiset(items) == multiset(Wanted(items, ids)) + multiset(Unwanted(items, ids))
    ensures |items| == |Wanted(items, ids)| + |Unwanted(items, ids)|
  {
    if items != [] {
      var n := |items| - 1;
      WantedSplit(items[..n], ids);
      assert items == items[..n] + [items[n]];
    }
  }

  lemma RecordsConcat(a: seq<Item>, b: seq<Item>)
    ensures Records(a + b) == Records(a) + Records(b)
    ensures Results(a + b) == Results(a) + Results(b)
  {}

  lemma CallBalances(b: Books, call: Call, item: Item)
    requires Balanced(b)
    ensures Balanced(BookAsync(CountCall(b, call), item))
    ensures Balanced(BookDirect(CountCall(b, call), item))
    ensures Accounted(BookAsync(CountCall(b, call), item)) == Accounted(b) + 1
    ensures Accounted(BookDirect(CountCall(b, call), item)) == Accounted(b) + 1
  {
    RecordsConcat(b.delivered, [item]);
  }

  lemma TransferBalances(pending: multiset<Item>, ready: seq<Item>, arrived: seq<Item>, ids: seq<CallId>)
    requires multiset(arrived) <= pending
    ensures pending + multiset(ready)
         == (pending - multiset(arrived)) + multiset(Unwanted(ready, ids) + Unwanted(arrived, ids))
            + multiset(Wanted(ready, ids) + Wanted(arrived, ids))
    ensures |pending| + |ready|
         == |pending - multiset(arrived)| + |Unwanted(ready, ids) + Unwanted(arrived, ids)|
            + |Wanted(ready, ids) + Wanted(arrived, ids)|
  {
    WantedSplit(ready, ids);
    WantedSplit(arrived, ids);
    assert |pending| == |pending - multiset(arrived)| + |multiset(arrived)|;
  }

  lemma ResolveBalances(b: Books, ids: seq<CallId>, arrived: seq<Item>)
    requires Balanced(b) && multiset(arrived) <= b.pending
    ensures Balanced(BookResolve(b, ids, arrived))
    ensures Accounted(BookResolve(b, ids, arrived)) == Accounted(b)
  {
    var hits := Hits(b, ids, arrived);
    TransferBalances(b.pending, b.ready, arrived, ids);
    RecordsConcat(b.delivered, hits);
    assert multiset(b.awaited + hits) == multiset(b.awaited) + multiset(hits);
    assert multiset(b.delivered + hits) == multiset(b.delivered) + multiset(hits);
  }

  lemma CallConserves<S, V>(host: Host, vm: Machine<S, V>, s: State<S, V>)
    requires s.exit.None? && s.progress.FunctionCall? && Conserved(s)
    ensures Conserved(AdvanceCall(host, vm, s))
  {
    var call := s.progress.call;
    var counted := CountCall(s.books, call);
    if Refusal(host, call, counted.started).None? {
      var item := ItemOf(host, |s.books.calls|, call);
      CallBalances(s.books, call, item);
    }
  }

  lemma ResolveConserves<S, V>(vm: Machine<S, V>, s: State<S, V>, arrived: seq<Item>)
    requires s.exit.None? && s.progress.ResolveFutures? && Legal(s, arrived) && Conserved(s)
    ensures Conserved(AdvanceResolve(vm, s, arrived))
  {
    ResolveBalances(s.books, s.progress.ids, arrived);
  }

  lemma AdvanceConserves<S, V>(host: Host, vm: Machine<S, V>, s: State<S, V>, arrived: seq<Item>)
    requires s.exit.None? && Legal(s, arrived) && Conserved(s)
    ensures Conserved(Advance(host, vm, s, arrived))
  {
    if s.progress.FunctionCall? {
      CallConserves(host, vm, s);
    } else if s.progress.ResolveFutures? {
      ResolveConserves(vm, s, arrived);
    }
  }

  /** Conservation holds in every state of every run. */
  lemma {:induction false} RunConserves<S, V>(host: Host, vm: Machine<S, V>, start: Yield<S, V>,
                                              states: seq<State<S, V>>, arrivals: seq<seq<Item>>, k: nat)
    requires IsRun(host, vm, start, states, arrivals) && k < |states|
    ensures Conserved(states[k])
  {
    if k > 0 {
      RunConserves(host, vm, start, states, arrivals, k - 1);
      AdvanceConserves(host, vm, states[k-1], arrivals[k-1]);
    }
  }

  // ----- Every outcome at most once, under its own call ---------------------

  /** The items of the given calls, in the order they were issued. */
  function ItemsOf(host: Host, calls: seq<Call>): seq<Item>
    requires forall k :: 0 <= k < |calls| ==> Callable(host, calls[k])
  {
    seq(|calls|, k requires 0 <= k < |calls| => ItemOf(host, k, calls[k]))
  }

  /** The calls that were started: all but a refused last one. */
  function Started(b: Books): seq<Call> {
    if b.refused <= |b.calls| then b.calls[..|b.calls| - b.refused] else []
  }

  /** The items in the books are exactly the outcomes of the calls that were started. */
  ghost predicate Authentic(host: Host, b: Books) {
    && b.refused <= |b.calls|
    && (forall k :: 0 <= k < |Started(b)| ==> Callable(host, Started(b)[k]))
    && multiset(ItemsOf(host, Started(b))) == multiset(b.issued) + multiset(b.direct)
  }

  lemma AdvanceAuthentic<S, V>(host: Host, vm: Machine<S, V>, s: State<S, V>, arrived: seq<Item>)
    requires s.exit.None? && Authentic(host, s.books) && s.books.refused == 0
    ensures Authentic(host, Advance(host, vm, s, arrived).books)
  {
    if s.progress.FunctionCall? {
      CallAuthentic(host, s.books, s.progress.call);
    } else if s.progress.ResolveFutures? {
      assert Started(Advance(host, vm, s, arrived).books) == Started(s.books);
    }
  }

  lemma CallAuthentic(host: Host, b: Books, call: Call)
    requires Authentic(host, b) && b.refused == 0
    ensures Authentic(host, BookRefusal(CountCall(b, call)))
    ensures Callable(host, call) ==>
      var item := ItemOf(host, |b.calls|, call);
      && Authentic(host, BookAsync(CountCall(b, call), item))
      && Authentic(host, BookDirect(CountCall(b, call), item))
  {
    assert Started(b) == b.calls;
    assert Started(BookRefusal(CountCall(b, call))) == b.calls;
    if Callable(host, call) {
      var item := ItemOf(host, |b.calls|, call);
      assert Started(BookAsync(CountCall(b, call), item)) == b.calls + [call];
      assert Started(BookDirect(CountCall(b, call), item)) == b.calls + [call];
      assert ItemsOf(host, b.calls + [call]) == ItemsOf(host, b.calls) + [item];
    }
  }

  lemma {:induction false} RunAuthentic<S, V>(host: Host, vm: Machine<S, V>, start: Yield<S, V>,
                                              states: seq<State<S, V>>, arrivals: seq<seq<Item>>, k: nat)
    requires IsRun(host, vm, start, states, arrivals) && k < |states|
    ensures Authentic(host, states[k].books)
  {
    if k > 0 {
      RunAuthentic(host, vm, start, states, arrivals, k - 1);
      RunConserves(host, vm, start, states, arrivals, k - 1);
      AdvanceAuthentic(host, vm, states[k-1], arrivals[k-1]);
    }
  }

  ghost predicate DistinctCalls(calls: seq<Call>) {
    forall i, j :: 0 <= i < j < |calls| ==> calls[i].id != calls[j].id
  }

  ghost predicate DistinctIds(items: seq<Item>) {
    forall i, j :: 0 <= i < j < |items| ==> items[i].id != items[j].id
  }

  lemma {:induction false} OccursTwice(items: seq<Item>, x: Item)
    requires multiset(items)[x] >= 2
    ensures exists i, j :: 0 <= i < j < |items| && items[i] == x && items[j] == x
  {
    assert items == [items[0]] + items[1..];
    if items[0] == x {
      assert x in items[1..];
      var j :| 0 <= j < |items[1..]| && items[1..][j] == x;
      assert items[0] == x && items[j+1] == x;
    } else {
      OccursTwice(items[1..], x);
      var i, j :| 0 <= i < j < |items[1..]| && items[1..][i] == x && items[1..][j] == x;
      assert items[i+1] == x && items[j+1] == x;
    }
  }

  lemma DistinctBelow(all: seq<Item>, some: seq<Item>)
    requires DistinctIds(all) && multiset(some) <= multiset(all)
    ensures DistinctIds(some)
  {
    forall i, j | 0 <= i < j < |some| ensures some[i].id != some[j].id {
      assert some[i] in multiset(all) && some[j] in multiset(all);
      if some[i] == some[j] {
        CountedTwice(some, i, j);
        OccursTwice(all, some[i]);
      } else {
        var p :| 0 <= p < |all| && all[p] == some[i];
        var q :| 0 <= q < |all| && all[q] == some[j];
        assert p < q || q < p;
      }
    }
  }

  lemma Once(all: seq<Item>, x: Item)
    requires DistinctIds(all) && x in all
    ensures multiset(all)[x] == 1
  {
    if multiset(all)[x] >= 2 {
      OccursTwice(all, x);
    }
  }

  /** With distinct call ids, at any point of any run: the outcome of each started
      call is delivered, ready, or in flight, and in only one of these; the VM has
      been told at most one result per id, and it is the result of that very call. */
  lemma AtMostOnce<S, V>(host: Host, vm: Machine<S, V>, start: Yield<S, V>,
                         states: seq<State<S, V>>, arrivals: seq<seq<Item>>, k: nat, c: nat)
    requires IsRun(host, vm, start, states, arrivals) && k < |states|
    requires DistinctCalls(states[k].books.calls)
    requires c < |Started(states[k].books)|
    ensures var b := states[k].books;
      && Callable(host, b.calls[c])
      && var item := ItemOf(host, c, b.calls[c]);
      && multiset(b.delivered)[item] + b.pending[item] + multiset(b.ready)[item] == 1
      && DistinctIds(b.delivered)
      && (forall t :: t in b.told && t.0 == b.calls[c].id ==> t.1 == item.result)
      && (item in b.delivered <==> exists i :: 0 <= i < |b.told| && b.told[i].0 == b.calls[c].id)
  {
    var b := states[k].books;
    RunConserves(host, vm, start, states, arrivals, k);
    RunAuthentic(host, vm, start, states, arrivals, k);
    var all := ItemsOf(host, Started(b));
    assert DistinctIds(all);
    var item := ItemOf(host, c, b.calls[c]);
    assert all[c] == item;
    Once(all, item);
    DistinctBelow(all, b.delivered);
    forall i | 0 <= i < |b.delivered| && b.delivered[i].id == item.id
      ensures b.delivered[i] == item
    {
      assert b.delivered[i] in multiset(all);
      var q :| 0 <= q < |all| && all[q] == b.delivered[i];
      assert q == c;
    }
    if item in b.delivered {
      var i :| 0 <= i < |b.delivered| && b.delivered[i] == item;
      assert b.told[i].0 == b.calls[c].id;
    }
  }

  // ----- Progress and the step bound ----------------------------------------

  lemma NoHitsExactly(b: Books, ids: seq<CallId>, arrived: seq<Item>)
    requires LegalArrivals(b, ids, arrived)
    ensures Hits(b, ids, arrived) == []
       <==> forall x: Item :: x in b.pending || x in b.ready ==> x.id !in ids
  {
    var hits := Hits(b, ids, arrived);
    WantedMembers(b.ready, ids);
    WantedMembers(arrived, ids);
    if hits != [] {
      var x := hits[0];
      assert x.id in ids;
      assert x in b.ready || x in multiset(arrived);
    } else {
      assert Wanted(b.ready, ids) == [] && Wanted(arrived, ids) == [];
      assert forall x :: x in arrived ==> x.id !in ids;
      assert multiset(arrived) == b.pending;
      assert forall x :: x in b.pending ==> x in multiset(arrived);
    }
  }

  /** A resolve step fails exactly when no call the VM asks for is in flight or ready. */
  lemma StuckExactly<S, V>(host: Host, vm: Machine<S, V>, s: State<S, V>, arrived: seq<Item>)
    requires s.exit.None? && s.progress.ResolveFutures? && Legal(s, arrived)
    ensures Advance(host, vm, s, arrived).exit.Some?
       <==> forall x: Item :: x in s.books.pending || x in s.books.ready ==> x.id !in s.progress.ids
  {
    NoHitsExactly(s.books, s.progress.ids, arrived);
  }

  lemma {:induction false} WantedMembers(items: seq<Item>, ids: seq<CallId>)
    ensures forall x :: x in Wanted(items, ids) <==> x in items && x.id in ids
    ensures forall x :: x in Unwanted(items, ids) <==> x in items && x.id !in ids
  {
    if items != [] {
      var n := |items| - 1;
      WantedMembers(items[..n], ids);
      assert items == items[..n] + [items[n]];
    }
  }

  /** The VM waits for something, and only for calls it issued and has no result of. */
  ghost predicate AsksFairly<S, V>(s: State<S, V>) {
    s.progress.ResolveFutures? ==>
      && s.progress.ids != []
      && forall id :: id in s.progress.ids ==>
           && (exists x :: x in s.books.issued && x.id == id)
           && (forall x :: x in s.books.awaited ==> x.id != id)
  }

  /** For a VM that asks fairly, every resolve step of every run succeeds, hands over
      only requested calls and at least one of them, and leaves nothing requested in `ready`. */
  lemma ResolveProgress<S, V>(host: Host, vm: Machine<S, V>, start: Yield<S, V>,
                              states: seq<State<S, V>>, arrivals: seq<seq<Item>>, k: nat)
    requires IsRun(host, vm, start, states, arrivals) && k < |arrivals|
    requires states[k].progress.ResolveFutures? && AsksFairly(states[k])
    ensures var before, after := states[k].books, states[k+1].books;
      && states[k+1].exit.None?
      && before.awaited < after.awaited
      && (forall x :: x in after.awaited[|before.awaited|..] ==> x.id in states[k].progress.ids)
      && (forall x :: x in after.ready ==> x.id !in states[k].progress.ids)
  {
    var s, arrived := states[k], arrivals[k];
    var ids := s.progress.ids;
    RunConserves(host, vm, start, states, arrivals, k);
    StuckExactly(host, vm, s, arrived);
    WantedMembers(s.books.ready, ids);
    WantedMembers(arrived, ids);
    assert ids[0] in ids;
    var x :| x in s.books.issued && x.id == ids[0];
    assert x in multiset(s.books.issued) && x !in multiset(s.books.awaited);
    assert x in s.books.pending || x in s.books.ready;
    assert x.id in ids;
    assert states[k+1].books == BookResolve(s.books, ids, arrived);
    assert states[k+1].books.awaited[|s.books.awaited|..] == Hits(s.books, ids, arrived);
  }

  ghost predicate WithinLimit<S, V>(host: Host, s: State<S, V>) {
    && |s.books.calls| - s.books.refused <= host.maxCalls
    && s.books.refused + s.books.resolves <= |s.books.awaited| + (if s.exit.Some? then 1 else 0)
  }

  lemma {:induction false} RunWithinLimit<S, V>(host: Host, vm: Machine<S, V>, start: Yield<S, V>,
                                                states: seq<State<S, V>>, arrivals: seq<seq<Item>>, k: nat)
    requires IsRun(host, vm, start, states, arrivals) && k < |states|
    requires host.maxCalls < U32_MAX
    ensures WithinLimit(host, states[k])
  {
    if k > 0 {
      RunWithinLimit(host, vm, start, states, arrivals, k - 1);
      RunConserves(host, vm, start, states, arrivals, k - 1);
      AdvanceWithinLimit(host, vm, states[k-1], arrivals[k-1]);
    }
  }

  lemma AdvanceWithinLimit<S, V>(host: Host, vm: Machine<S, V>, s: State<S, V>, arrived: seq<Item>)
    requires s.exit.None? && Conserved(s) && WithinLimit(host, s) && host.maxCalls < U32_MAX
    ensures WithinLimit(host, Advance(host, vm, s, arrived))
  {
    if s.progress.FunctionCall? {
      CallWithinLimit(host, vm, s);
    } else if s.progress.ResolveFutures? {
      var b' := BookResolve(s.books, s.progress.ids, arrived);
      assert |b'.awaited| == |s.books.awaited| + |Hits(s.books, s.progress.ids, arrived)|;
      assert Advance(host, vm, s, arrived).books == b';
    }
  }

  lemma CallWithinLimit<S, V>(host: Host, vm: Machine<S, V>, s: State<S, V>)
    requires s.exit.None? && s.progress.FunctionCall? && Conserved(s) && WithinLimit(host, s) && host.maxCalls < U32_MAX
    ensures WithinLimit(host, AdvanceCall(host, vm, s))
  {
    var b', started := AdvanceCall(host, vm, s).books, SaturatingInc(s.books.started);
    assert b'.resolves == s.books.resolves && b'.awaited == s.books.awaited;
    assert |b'.calls| == |s.books.calls| + 1 && started == Min(|b'.calls|, U32_MAX);
    assert s.books.refused == 0;
    assert b'.refused == if Refusal(host, s.progress.call, started).Some? then 1 else 0;
  }

  /** Below the saturation point of the counter, a run starts at most `maxCalls` calls and
      takes at most `2 * maxCalls + 1` FunctionCall and ResolveFutures steps. */
  lemma StepBound<S, V>(host: Host, vm: Machine<S, V>, start: Yield<S, V>,
                        states: seq<State<S, V>>, arrivals: seq<seq<Item>>, k: nat)
    requires IsRun(host, vm, start, states, arrivals) && k < |states|
    requires host.maxCalls < U32_MAX
    ensures |Started(states[k].books)| <= host.maxCalls
    ensures |states[k].books.records| <= host.maxCalls
    ensures |states[k].books.calls| + states[k].books.resolves <= 2 * host.maxCalls + 1
  {
    RunWithinLimit(host, vm, start, states, arrivals, k);
    RunConserves(host, vm, start, states, arrivals, k);
    var b := states[k].books;
    assert |multiset(b.issued)| == |b.pending| + |multiset(b.ready)| + |multiset(b.awaited)|;
    assert |multiset(b.delivered)| == |multiset(b.awaited)| + |multiset(b.direct)|;
  }

  /** A VM that requests the same call for ever. */
  function Spinner(call: Call): Machine<(), ()> {
    Machine((_, _) => Yield(FunctionCall((), call), ""), (u: ()) => u)
  }

  /** At the saturation point the limit is void: runs with any number of started calls exist. */
  lemma {:induction false} SaturatedLimitIsVoid(host: Host, call: Call, n: nat)
    returns (states: seq<State<(), ()>>, arrivals: seq<seq<Item>>)
    requires host.maxCalls == U32_MAX && Callable(host, call)
    ensures IsRun(host, Spinner(call), Yield(FunctionCall((), call), ""), states, arrivals)
    ensures |Started(states[|states|-1].books)| == n
    ensures states[|states|-1].exit.None? && states[|states|-1].progress == FunctionCall((), call)
  {
    if n == 0 {
      states, arrivals := [Initial(Yield(FunctionCall((), call), ""))], [];
    } else {
      states, arrivals := SaturatedLimitIsVoid(host, call, n - 1);
      var s := states[|states|-1];
      RunConserves(host, Spinner(call), Yield(FunctionCall((), call), ""), states, arrivals, |states| - 1);
      SpinStep(host, call, s);
      assert Advance(host, Spinner(call), s, []) == AdvanceCall(host, Spinner(call), s) && Legal(s, []);
      ExtendRun(host, Spinner(call), Yield(FunctionCall((), call), ""), states, arrivals, []);
      hide *;
      states, arrivals := states + [AdvanceCall(host, Spinner(call), s)], arrivals + [[]];
    }
  }

  lemma SpinStep(host: Host, call: Call, s: State<(), ()>)
    requires host.maxCalls == U32_MAX && Callable(host, call)
    requires s.exit.None? && s.progress == FunctionCall((), call) && Conserved(s)
    ensures var s' := AdvanceCall(host, Spinner(call), s);
      s'.exit.None? && s'.progress == s.progress && |Started(s'.books)| == |Started(s.books)| + 1
  {
    assert Refusal(host, call, SaturatingInc(s.books.started)).None?;
  }

  /** Without tools no call is ever started. */
  lemma NothingStarts<S, V>(host: Host, vm: Machine<S, V>, start: Yield<S, V>,
                            states: seq<State<S, V>>, arrivals: seq<seq<Item>>, k: nat)
    requires IsRun(host, vm, start, states, arrivals) && k < |states| && host.registry == map[]
    ensures Started(states[k].books) == []
  {
    RunAuthentic(host, vm, start, states, arrivals, k);
    var calls := Started(states[k].books);
    assert calls == [] || Callable(host, calls[0]);
  }

  /** No run of any program starts more calls than the limit. */
  ghost predicate LimitHolds(host: Host) {
    forall vm: Machine<(), ()>, start: Yield<(), ()>, states: seq<State<(), ()>>, arrivals: seq<seq<Item>> ::
      IsRun(host, vm, start, states, arrivals) ==> |Started(states[|states|-1].books)| <= host.maxCalls
  }

  /** The call limit holds exactly below the saturation point of its counter, or where there is nothing
      to call. */
  lemma LimitHoldsExactly(host: Host)
    ensures LimitHolds(host) <==> host.maxCalls < U32_MAX || host.registry == map[]
  {
    if host.maxCalls < U32_MAX || host.registry == map[] {
      forall vm: Machine<(), ()>, start: Yield<(), ()>, states: seq<State<(), ()>>, arrivals: seq<seq<Item>>
        | IsRun(host, vm, start, states, arrivals)
        ensures |Started(states[|states|-1].books)| <= host.maxCalls
      {
        if host.maxCalls < U32_MAX {
          StepBound(host, vm, start, states, arrivals, |states| - 1);
        } else {
          NothingStarts(host, vm, start, states, arrivals, |states| - 1);
        }
      }
    } else {
      var name :| name in host.registry;
      var call := Call(0, name, Ok(JNull));
      var states, arrivals := SaturatedLimitIsVoid(host, call, U32_MAX + 1);
      assert IsRun(host, Spinner(call), Yield(FunctionCall((), call), ""), states, arrivals);
    }
  }
}
