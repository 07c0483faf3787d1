/** What the VM hears from the host loop, and what a run leaves behind. Any VM can be wrapped in one
    that writes down each of its requests with the answer to it, and what it printed. */
module MontyTranscript {
  import opened Core
  import opened MontyDispatcher

  datatype Exchange<+S, +V> = Exchange(asked: Progress<S, V>, answer: Answer)

  /** A recording VM: its present request, the exchanges so far, and everything printed so far. */
  datatype Recorder<+S, +V> = Recorder(asked: Progress<S, V>, log: seq<Exchange<S, V>>, prints: seq<string>)

  function StateOf<S, V>(p: Progress<S, V>): S {
    match p
    case Complete(repl, _) => repl
    case NameLookup(vm, _) => vm
    case FunctionCall(vm, _) => vm
    case ResolveFutures(vm, _) => vm
    case OsCall(vm, _) => vm
    case Failed(repl, _) => repl
  }

  /** The same request, made by another machine. */
  function Moved<S, T, V>(p: Progress<S, V>, state: T): Progress<T, V> {
    match p
    case Complete(_, value) => Complete(state, value)
    case NameLookup(_, name) => NameLookup(state, name)
    case FunctionCall(_, call) => FunctionCall(state, call)
    case ResolveFutures(_, ids) => ResolveFutures(state, ids)
    case OsCall(_, denial) => OsCall(state, denial)
    case Failed(_, error) => Failed(state, error)
  }

  function Recorded<S, V>(y: Yield<S, V>, log: seq<Exchange<S, V>>, prints: seq<string>): Yield<Recorder<S, V>, V> {
    Yield(Moved(y.progress, Recorder(y.progress, log, prints + [y.printed])), y.printed)
  }

  function Recording<S, V>(vm: Machine<S, V>): Machine<Recorder<S, V>, V> {
    Machine((r: Recorder<S, V>, answer: Answer) =>
              Recorded(vm.resume(StateOf(r.asked), answer), r.log + [Exchange(r.asked, answer)], r.prints),
            (r: Recorder<S, V>) => r)
  }

  // ----- What is heard -------------------------------------------------------------

  /** The answer that a request deserves. */
  ghost predicate Proper<S, V>(host: Host, x: Exchange<S, V>) {
    match x.asked
    case NameLookup(_, name) =>
      // The function, exactly when it is registered.
      x.answer.Looked? && (x.answer.tool.Some? <==> name in host.registry)
      && (x.answer.tool.Some? ==> x.answer.tool.value == host.registry[name])
    case OsCall(_, denial) =>
      // Operating-system calls are denied.
      x.answer == Direct(Raise(denial))
    case FunctionCall(_, call) =>
      // A promise from an asynchronous tool, the result from a synchronous one.
      && call.name in host.registry && call.context.Ok?
      && (if host.registry[call.name].asyncMode then x.answer.Pending? else x.answer.Direct?)
    case ResolveFutures(_, ids) =>
      // At least one result, and only requested ones.
      x.answer.Resolved? && x.answer.results != []
      && forall i :: 0 <= i < |x.answer.results| ==> x.answer.results[i].0 in ids
    case Complete(_, _) => false
    case Failed(_, _) => false
  }

  /** The results of calls in one exchange, each under the id of its call. */
  function Results<S, V>(x: Exchange<S, V>): seq<(CallId, ExtResult)> {
    match x.answer
    case Direct(result) => if x.asked.FunctionCall? then [(x.asked.call.id, result)] else []
    case Resolved(results) => results
    case _ => []
  }

  function AllResults<S, V>(log: seq<Exchange<S, V>>): seq<(CallId, ExtResult)> {
    if log == [] then [] else AllResults(log[..|log|-1]) + Results(log[|log|-1])
  }

  /** The calls requested, in order. */
  function CallsOf<S, V>(log: seq<Exchange<S, V>>): seq<Call> {
    if log == [] then []
    else
      var last := log[|log|-1].asked;
      CallsOf(log[..|log|-1]) + (if last.FunctionCall? then [last.call] else [])
  }

  function Concat(prints: seq<string>): string {
    if prints == [] then "" else Concat(prints[..|prints|-1]) + prints[|prints|-1]
  }

  /** The record of a run so far: every answer was proper, the calls and deliveries in the books are
      exactly those of the exchanges, in order (a refused call was not answered), and the output is
      everything printed, in order. */
  ghost predicate InOrder<S, V>(host: Host, s: State<Recorder<S, V>, V>) {
    var r := StateOf(s.progress);
    && s.progress == Moved(r.asked, r)
    && (forall i :: 0 <= i < |r.log| ==> Proper(host, r.log[i]))
    && AllResults(r.log) == s.books.told
    && (if s.books.refused == 0 then s.books.calls == CallsOf(r.log)
        else s.exit.Some? && r.asked.FunctionCall? && s.books.calls == CallsOf(r.log) + [r.asked.call])
    && s.stdout == Concat(r.prints)
  }

  lemma LogGrows<S, V>(log: seq<Exchange<S, V>>, x: Exchange<S, V>)
    ensures AllResults(log + [x]) == AllResults(log) + Results(x)
    ensures CallsOf(log + [x]) == CallsOf(log) + (if x.asked.FunctionCall? then [x.asked.call] else [])
  {
    assert (log + [x])[..|log|] == log;
  }

  lemma PrintsGrow(prints: seq<string>, text: string)
    ensures Concat(prints + [text]) == Concat(prints) + text
  {
    assert (prints + [text])[..|prints|] == prints;
  }

  /** Feeding a proper answer to a recording VM keeps its record in order. */
  lemma FeedKeepsOrder<S, V>(host: Host, vm: Machine<S, V>, s: State<Recorder<S, V>, V>, s1: State<Recorder<S, V>, V>,
                             answer: Answer)
    requires InOrder(host, s) && s.exit.None? && s1 == s.(books := s1.books) && s1.books.refused == s.books.refused
    requires s1.books.calls == s.books.calls + (if s.progress.FunctionCall? then [s.progress.call] else [])
    requires Proper(host, Exchange(StateOf(s.progress).asked, answer))
    requires s1.books.told == s.books.told + Results(Exchange(StateOf(s.progress).asked, answer))
    ensures InOrder(host, Feed(s1, Recording(vm), StateOf(s.progress), answer))
  {
    var r := StateOf(s.progress);
    var x, y := Exchange(r.asked, answer), vm.resume(StateOf(r.asked), answer);
    var r' := FeedRecords(vm, s1, answer);
    LogGrows(r.log, x);
    PrintsGrow(r.prints, y.printed);
    assert s.progress.FunctionCall? <==> r.asked.FunctionCall?;
    hide Proper, AllResults, CallsOf, Concat, Results, Feed, Recording, StateOf, Moved;
    forall i | 0 <= i < |r'.log| ensures Proper(host, r'.log[i]) {
      if i < |r.log| { assert r'.log[i] == r.log[i]; }
    }
  }

  lemma FeedRecords<S, V>(vm: Machine<S, V>, s: State<Recorder<S, V>, V>, answer: Answer) returns (r': Recorder<S, V>)
    ensures var r := StateOf(s.progress);
      var y := vm.resume(StateOf(r.asked), answer);
      var after := Feed(s, Recording(vm), r, answer);
      && r' == Recorder(y.progress, r.log + [Exchange(r.asked, answer)], r.prints + [y.printed])
      && StateOf(after.progress) == r' && after.progress == Moved(r'.asked, r')
      && after == s.(progress := after.progress, stdout := s.stdout + y.printed)
  {
    var r := StateOf(s.progress);
    r' := StateOf(Feed(s, Recording(vm), r, answer).progress);
  }

  lemma CallKeepsOrder<S, V>(host: Host, vm: Machine<S, V>, s: State<Recorder<S, V>, V>)
    requires InOrder(host, s) && s.exit.None? && s.progress.FunctionCall?
    ensures InOrder(host, AdvanceCall(host, Recording(vm), s))
  {
    var call, at := s.progress.call, s.progress.vm;
    var counted := CountCall(s.books, call);
    if Refusal(host, call, counted.started).None? {
      var item := ItemOf(host, |s.books.calls|, call);
      if host.registry[call.name].asyncMode {
        FeedKeepsOrder(host, vm, s, s.(books := BookAsync(counted, item)), Pending);
      } else {
        FeedKeepsOrder(host, vm, s, s.(books := BookDirect(counted, item)), Direct(item.result));
      }
    }
    hide InOrder, Feed, Recording;
  }

  lemma ResolveKeepsOrder<S, V>(host: Host, vm: Machine<S, V>, s: State<Recorder<S, V>, V>, arrived: seq<Item>)
    requires InOrder(host, s) && s.exit.None? && s.progress.ResolveFutures?
    ensures InOrder(host, AdvanceResolve(Recording(vm), s, arrived))
  {
    var ids, hits := s.progress.ids, Hits(s.books, s.progress.ids, arrived);
    var s1 := s.(books := BookResolve(s.books, ids, arrived));
    if hits != [] {
      HitsAreProper(host, s, arrived);
      hide Proper, AllResults, CallsOf, Concat;
      FeedKeepsOrder(host, vm, s, s1, Resolved(MontyDispatcher.Results(hits)));
      hide *;
    } else {
      assert MontyDispatcher.Results(hits) == [];
    }
  }

  lemma HitsAreProper<S, V>(host: Host, s: State<Recorder<S, V>, V>, arrived: seq<Item>)
    requires InOrder(host, s) && s.progress.ResolveFutures? && Hits(s.books, s.progress.ids, arrived) != []
    ensures Proper(host, Exchange(StateOf(s.progress).asked,
                                  Resolved(MontyDispatcher.Results(Hits(s.books, s.progress.ids, arrived)))))
  {
    var ids, hits := s.progress.ids, Hits(s.books, s.progress.ids, arrived);
    WantedMembers(s.books.ready, ids);
    WantedMembers(arrived, ids);
    hide Wanted, AllResults, CallsOf, Concat;
    forall i | 0 <= i < |hits| ensures hits[i].id in ids {
      assert hits[i] in hits;
    }
    var results := MontyDispatcher.Results(hits);
    assert |results| == |hits| && forall i :: 0 <= i < |hits| ==> results[i].0 == hits[i].id;
  }

  lemma TurnKeepsOrder<S, V>(host: Host, vm: Machine<S, V>, s: State<Recorder<S, V>, V>, arrived: seq<Item>)
    requires InOrder(host, s) && s.exit.None?
    ensures InOrder(host, Advance(host, Recording(vm), s, arrived))
  {
    match s.progress
    case FunctionCall(_, _) => CallKeepsOrder(host, vm, s);
    case ResolveFutures(_, _) => ResolveKeepsOrder(host, vm, s, arrived);
    case NameLookup(at, name) =>
      FeedKeepsOrder(host, vm, s, s, Looked(if name in host.registry then Some(host.registry[name]) else None));
    case OsCall(at, denial) => FeedKeepsOrder(host, vm, s, s, Direct(Raise(denial)));
    case _ =>
  }

  /** In every run of every program: each name looked up is answered with the registered tool or with
      nothing, each operating-system call with its denial, each call and each wait as its tool demands;
      the results the program hears are exactly the delivered calls, in order and under their own ids;
      and the output is the concatenation of what it printed. */
  lemma {:induction false} HeardExactly<S, V>(host: Host, vm: Machine<S, V>, start: Yield<S, V>,
                                              states: seq<State<Recorder<S, V>, V>>, arrivals: seq<seq<Item>>, k: nat)
    requires IsRun(host, Recording(vm), Recorded(start, [], []), states, arrivals) && k < |states|
    ensures InOrder(host, states[k])
  {
    if k == 0 {
      assert Concat([start.printed]) == start.printed by { PrintsGrow([], start.printed); }
    } else {
      hide InOrder, Advance, Recording;
      HeardExactly(host, vm, start, states, arrivals, k - 1);
      TurnKeepsOrder(host, vm, states[k-1], arrivals[k-1]);
    }
  }

  // ----- How a run ends --------------------------------------------------------------

  /** The outcome is what the last request called for. */
  ghost predicate EndsWell<S, V>(host: Host, s: State<Recorder<S, V>, V>, o: Outcome<Recorder<S, V>, V>) {
    var r := StateOf(s.progress);
    && o.repl == r && o.stdout == Concat(r.prints) && o.records == MontyDispatcher.Records(s.books.delivered)
    && match r.asked
       case Complete(_, value) => o.Completed? && o.value == value
       case Failed(_, error) => o.Errored? && o.error == error
       case FunctionCall(_, call) =>
         // One call too many, or else an unknown name, or else bad arguments.
         && o.Errored?
         && (if Min(|CallsOf(r.log)| + 1, U32_MAX) > host.maxCalls then o.error == LIMIT_ERROR
             else if call.name in host.registry then call.context == Err(o.error)
             else o.error == UNKNOWN_ERROR)
       case ResolveFutures(_, ids) =>
         // None of the calls waited for is in flight or ready.
         && o.Errored? && o.error == STUCK_ERROR
         && forall x :: x in s.books.pending || x in s.books.ready ==> x.id !in ids
       case _ => false
  }

  /** Every run that ends, ends as its last request demands, with the output and the log of all that
      went before. */
  lemma EndsExactly<S, V>(host: Host, vm: Machine<S, V>, start: Yield<S, V>,
                          states: seq<State<Recorder<S, V>, V>>, arrivals: seq<seq<Item>>)
    requires IsRun(host, Recording(vm), Recorded(start, [], []), states, arrivals)
    requires states[|states|-1].exit.Some?
    ensures EndsWell(host, states[|states|-1], states[|states|-1].exit.value)
  {
    hide InOrder, Conserved, EndsWell, Recording, Recorded, Advance;
    var k := |states| - 1;
    var s, s' := states[k-1], states[k];
    HeardExactly(host, vm, start, states, arrivals, k - 1);
    HeardExactly(host, vm, start, states, arrivals, k);
    RunConserves(host, Recording(vm), Recorded(start, [], []), states, arrivals, k - 1);
    RunConserves(host, Recording(vm), Recorded(start, [], []), states, arrivals, k);
    LastTurn(host, vm, s, arrivals[k-1]);
  }

  lemma LastTurn<S, V>(host: Host, vm: Machine<S, V>, s: State<Recorder<S, V>, V>, arrived: seq<Item>)
    requires InOrder(host, s) && s.exit.None? && Conserved(s) && Legal(s, arrived)
    requires var s' := Advance(host, Recording(vm), s, arrived);
      InOrder(host, s') && Conserved(s') && s'.exit.Some?
    ensures var s' := Advance(host, Recording(vm), s, arrived);
      EndsWell(host, s', s'.exit.value)
  {
    hide Proper, AllResults, CallsOf, Concat, Legal, Callable;
    match s.progress
    case FunctionCall(_, _) => LastCall(host, vm, s);
    case ResolveFutures(_, _) => LastResolve(host, vm, s, arrived);
    case _ =>
  }

  lemma LastCall<S, V>(host: Host, vm: Machine<S, V>, s: State<Recorder<S, V>, V>)
    requires InOrder(host, s) && s.exit.None? && s.progress.FunctionCall? && Conserved(s)
    requires var s' := AdvanceCall(host, Recording(vm), s);
      InOrder(host, s') && Conserved(s') && s'.exit.Some?
    ensures var s' := AdvanceCall(host, Recording(vm), s);
      EndsWell(host, s', s'.exit.value)
  {
    hide Proper, AllResults, CallsOf, Concat;
    var call := s.progress.call;
    var counted := CountCall(s.books, call);
    assert s.books.calls == CallsOf(StateOf(s.progress).log);
    assert counted.started == Min(|s.books.calls| + 1, U32_MAX);
    assert Refusal(host, call, counted.started).Some?;
  }

  lemma LastResolve<S, V>(host: Host, vm: Machine<S, V>, s: State<Recorder<S, V>, V>, arrived: seq<Item>)
    requires InOrder(host, s) && s.exit.None? && s.progress.ResolveFutures? && Legal(s, arrived)
    requires var s' := AdvanceResolve(Recording(vm), s, arrived);
      InOrder(host, s') && Conserved(s') && s'.exit.Some?
    ensures var s' := AdvanceResolve(Recording(vm), s, arrived);
      EndsWell(host, s', s'.exit.value)
  {
    hide Proper, AllResults, CallsOf, Concat, Wanted, Unwanted;
    assert Hits(s.books, s.progress.ids, arrived) == [];
    NothingWanted(s.books, s.progress.ids, arrived);
    hide Hits, LegalArrivals;
  }

  /** After a wait without a hit, what is in flight or ready is still not wanted. */
  lemma NothingWanted(b: Books, ids: seq<CallId>, arrived: seq<Item>)
    requires LegalArrivals(b, ids, arrived) && Hits(b, ids, arrived) == []
    ensures var b' := BookResolve(b, ids, arrived);
      forall x :: x in b'.pending || x in b'.ready ==> x.id !in ids
  {
    NoHitsExactly(b, ids, arrived);
    WantedMembers(b.ready, ids);
    WantedMembers(arrived, ids);
  }
}
