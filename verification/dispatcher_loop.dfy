/** The dispatcher loop as the code runs it, proved to follow the transition
    system of `MontyDispatcher` whatever order the futures finish in. */
module MontyLoop {
  import opened Core
  import opened MontyDispatcher

  /** Appending one more item. */
  lemma Snoc(a: seq<Item>, x: Item, ids: seq<CallId>)
    ensures Wanted(a + [x], ids) == if x.id in ids then Wanted(a, ids) + [x] else Wanted(a, ids)
    ensures Unwanted(a + [x], ids) == if x.id in ids then Unwanted(a, ids) else Unwanted(a, ids) + [x]
    ensures Records(a + [x]) == Records(a) + [x.record]
    ensures Results(a + [x]) == Results(a) + [(x.id, x.result)]
  {
    assert (a + [x])[..|a|] == a;
  }

  /** Takes the requested results out of `ready`, keeping the order of both parts,
      and logs them. */
  method DrainReadyFor(ids: seq<CallId>, ready: seq<Item>, records: seq<CallRecord>)
    returns (resolved: seq<(CallId, ExtResult)>, rest: seq<Item>, log: seq<CallRecord>)
    ensures resolved == Results(Wanted(ready, ids))
    ensures rest == Unwanted(ready, ids)
    ensures log == records + Records(Wanted(ready, ids))
  {
    resolved, rest, log := [], ready, records;
    var index := 0;
    ghost var seen: seq<Item> := [];   // the part of `ready` already looked at
    while index < |rest|
      invariant index <= |rest|
      invariant seen + rest[index..] == ready
      invariant Sorted(ids, seen, rest[..index], resolved, records, log)
      decreases |rest| - index
    {
      hide Sorted;
      var item := rest[index];
      SortOne(ids, seen, rest[..index], resolved, records, log, item);
      assert seen + rest[index..] == (seen + [item]) + rest[index+1..];
      seen := seen + [item];
      if item.id in ids {
        ghost var kept, tail := rest[..index], rest[index+1..];
        rest := rest[..index] + rest[index+1..];
        log := log + [item.record];
        resolved := resolved + [(item.id, item.result)];
        assert rest[..index] == kept && rest[index..] == tail;
      } else {
        assert rest[..index+1] == rest[..index] + [item];
        index := index + 1;
      }
    }
    assert rest[..index] == rest && rest[index..] == [] && seen == ready;
  }

  /** The items looked at are either kept, or handed over and logged. */
  ghost predicate Sorted(ids: seq<CallId>, seen: seq<Item>, kept: seq<Item>, resolved: seq<(CallId, ExtResult)>,
                         records: seq<CallRecord>, log: seq<CallRecord>)
  {
    && kept == Unwanted(seen, ids)
    && resolved == Results(Wanted(seen, ids))
    && log == records + Records(Wanted(seen, ids))
  }

  lemma SortOne(ids: seq<CallId>, seen: seq<Item>, kept: seq<Item>, resolved: seq<(CallId, ExtResult)>,
                records: seq<CallRecord>, log: seq<CallRecord>, item: Item)
    requires Sorted(ids, seen, kept, resolved, records, log)
    ensures if item.id in ids
            then Sorted(ids, seen + [item], kept, resolved + [(item.id, item.result)], records, log + [item.record])
            else Sorted(ids, seen + [item], kept + [item], resolved, records, log)
  {
    Snoc(seen, item, ids);
    Snoc(Wanted(seen, ids), item, ids);
    hide Wanted, Unwanted, Records, Results;
  }

  /** The waiting loop before any requested future has finished. */
  ghost predicate NoneYet(ids: seq<CallId>, pending0: multiset<Item>, ready0: seq<Item>,
                          arrived: seq<Item>, pending: multiset<Item>, ready: seq<Item>)
  {
    && multiset(arrived) <= pending0 && pending == pending0 - multiset(arrived)
    && (forall x :: x in arrived ==> x.id !in ids)
    && Wanted(arrived, ids) == [] && Unwanted(arrived, ids) == arrived
    && ready == ready0 + arrived
  }

  /** What the waiting loop has done when it ends. */
  ghost predicate Awaited(ids: seq<CallId>, pending0: multiset<Item>, ready0: seq<Item>, records0: seq<CallRecord>,
                          arrived: seq<Item>, resolved: seq<(CallId, ExtResult)>,
                          pending: multiset<Item>, ready: seq<Item>, records: seq<CallRecord>)
  {
    && UpToFirst(ids, pending0, arrived)
    && pending == pending0 - multiset(arrived)
    && resolved == Results(Wanted(arrived, ids))
    && ready == ready0 + Unwanted(arrived, ids)
    && records == records0 + Records(Wanted(arrived, ids))
  }

  lemma StartsEmpty(ids: seq<CallId>, pending0: multiset<Item>, ready0: seq<Item>)
    ensures NoneYet(ids, pending0, ready0, [], pending0, ready0)
  {
    assert pending0 - multiset([]) == pending0 && ready0 + [] == ready0;
  }

  lemma Arrive(ids: seq<CallId>, pending0: multiset<Item>, ready0: seq<Item>, records0: seq<CallRecord>,
               arrived: seq<Item>, pending: multiset<Item>, ready: seq<Item>, item: Item)
    requires NoneYet(ids, pending0, ready0, arrived, pending, ready) && item in pending
    ensures if item.id in ids
            then Awaited(ids, pending0, ready0, records0, arrived + [item], [(item.id, item.result)],
                         pending - multiset{item}, ready, records0 + [item.record])
            else NoneYet(ids, pending0, ready0, arrived + [item], pending - multiset{item}, ready + [item])
  {
    hide UpToFirst, Wanted, Unwanted, Records, Results;
    ArriveCount(pending0, arrived, pending, item);
    if item.id in ids {
      ArriveWanted(ids, pending0, arrived, item);
    } else {
      Snoc(arrived, item, ids);
      assert ready + [item] == ready0 + (arrived + [item]);
    }
  }

  lemma ArriveWanted(ids: seq<CallId>, pending0: multiset<Item>, arrived: seq<Item>, item: Item)
    requires item.id in ids && multiset(arrived + [item]) <= pending0
    requires forall x :: x in arrived ==> x.id !in ids
    requires Wanted(arrived, ids) == [] && Unwanted(arrived, ids) == arrived
    ensures UpToFirst(ids, pending0, arrived + [item])
    ensures Unwanted(arrived + [item], ids) == arrived
    ensures Records(Wanted(arrived + [item], ids)) == [item.record]
    ensures Results(Wanted(arrived + [item], ids)) == [(item.id, item.result)]
  {
    hide Wanted, Unwanted, Records, Results;
    Snoc(arrived, item, ids);
    Single(item);
    assert [] + [item] == [item];
    var arrived' := arrived + [item];
    forall i | 0 <= i < |arrived'| - 1 ensures arrived'[i].id !in ids {
      assert arrived'[i] in arrived;
    }
    assert arrived'[|arrived'| - 1] == item;
  }

  lemma Single(item: Item)
    ensures Records([item]) == [item.record] && Results([item]) == [(item.id, item.result)]
  {}

  lemma ArriveCount(pending0: multiset<Item>, arrived: seq<Item>, pending: multiset<Item>, item: Item)
    requires multiset(arrived) <= pending0 && pending == pending0 - multiset(arrived) && item in pending
    ensures multiset(arrived + [item]) == multiset(arrived) + multiset{item} <= pending0
    ensures pending - multiset{item} == pending0 - multiset(arrived + [item])
  {}

  lemma Exhausted(ids: seq<CallId>, pending0: multiset<Item>, ready0: seq<Item>, records0: seq<CallRecord>,
                  arrived: seq<Item>, ready: seq<Item>)
    requires NoneYet(ids, pending0, ready0, arrived, multiset{}, ready)
    ensures Awaited(ids, pending0, ready0, records0, arrived, [], multiset{}, ready, records0)
  {}

  /** Waits for futures until a requested one finishes, or none is left. */
  method AwaitOne(ids: seq<CallId>, pending0: multiset<Item>, ready0: seq<Item>, records0: seq<CallRecord>)
    returns (resolved: seq<(CallId, ExtResult)>, pending: multiset<Item>, ready: seq<Item>,
             records: seq<CallRecord>, ghost arrived: seq<Item>)
    ensures Awaited(ids, pending0, ready0, records0, arrived, resolved, pending, ready, records)
    // It comes back empty-handed exactly when nothing requested was in flight.
    ensures resolved == [] <==> NoneWanted(ids, pending0)
    ensures resolved == [] ==> pending == multiset{}
  {
    hide *;
    resolved, pending, ready, records, arrived := [], pending0, ready0, records0, [];
    StartsEmpty(ids, pending0, ready0);
    while resolved == []
      invariant if resolved == []
                then NoneYet(ids, pending0, ready0, arrived, pending, ready) && records == records0
                else Awaited(ids, pending0, ready0, records0, arrived, resolved, pending, ready, records)
      decreases |pending|
    {
      if pending == multiset{} {
        Exhausted(ids, pending0, ready0, records0, arrived, ready);
        AwaitedExactly(ids, pending0, ready0, records0, arrived, resolved, pending, ready, records);
        return;
      }
      var item :| item in pending;
      Arrive(ids, pending0, ready0, records0, arrived, pending, ready, item);
      pending := pending - multiset{item};
      arrived := arrived + [item];
      if item.id in ids {
        records := records + [item.record];
        resolved := resolved + [(item.id, item.result)];
        assert resolved == [(item.id, item.result)];
      } else {
        ready := ready + [item];
      }
    }
    AwaitedExactly(ids, pending0, ready0, records0, arrived, resolved, pending, ready, records);
  }

  ghost predicate NoneWanted(ids: seq<CallId>, pending: multiset<Item>) {
    forall x :: x in pending ==> x.id !in ids
  }

  lemma AwaitedExactly(ids: seq<CallId>, pending0: multiset<Item>, ready0: seq<Item>, records0: seq<CallRecord>,
                       arrived: seq<Item>, resolved: seq<(CallId, ExtResult)>,
                       pending: multiset<Item>, ready: seq<Item>, records: seq<CallRecord>)
    requires Awaited(ids, pending0, ready0, records0, arrived, resolved, pending, ready, records)
    ensures resolved == [] <==> NoneWanted(ids, pending0)
    ensures resolved == [] ==> pending == multiset{}
  {
    hide Wanted, Unwanted, Records;
    WantedMembers(arrived, ids);
    assert |resolved| == |Wanted(arrived, ids)|;
    if resolved == [] {
      assert forall x :: x in arrived ==> x.id !in ids;
      assert multiset(arrived) == pending0;
    } else {
      var x := Wanted(arrived, ids)[0];
      assert x in multiset(arrived) && x.id in ids;
    }
  }

  /** The local variables of the loop agree with the state `s`. */
  ghost predicate Tracks<S, V>(s: State<S, V>, progress: Progress<S, V>, stdout: string, started: U32, ordinal: nat,
                               pending: multiset<Item>, ready: seq<Item>, records: seq<CallRecord>)
  {
    && s.progress == progress && s.stdout == stdout
    && s.books.started == started && |s.books.calls| == ordinal
    && s.books.pending == pending && s.books.ready == ready && s.books.records == records
  }

  /** The FunctionCall arm: count the call, refuse it, start it, or run it to its end. */
  method CallTurn<S, V>(host: Host, vm: Machine<S, V>, at: S, call: Call, stdout0: string, started0: U32, ordinal: nat,
                        pending0: multiset<Item>, records0: seq<CallRecord>, ghost s: State<S, V>)
    returns (progress: Progress<S, V>, stdout: string, started: U32, pending: multiset<Item>,
             records: seq<CallRecord>, exit: Option<Outcome<S, V>>)
    requires s.exit.None?
    requires Tracks(s, FunctionCall(at, call), stdout0, started0, ordinal, pending0, s.books.ready, records0)
    ensures Tracks(AdvanceCall(host, vm, s), progress, stdout, started, ordinal + 1, pending, s.books.ready, records)
    ensures AdvanceCall(host, vm, s).exit == exit
  {
    progress, stdout, pending, records, exit := FunctionCall(at, call), stdout0, pending0, records0, None;
    started := SaturatingInc(started0);
    if started > host.maxCalls {
      exit := Some(Errored(vm.intoRepl(at), LIMIT_ERROR, stdout, records));
      return;
    }
    if call.name !in host.registry {
      exit := Some(Errored(vm.intoRepl(at), UNKNOWN_ERROR, stdout, records));
      return;
    }
    if call.context.Err? {
      exit := Some(Errored(vm.intoRepl(at), call.context.error, stdout, records));
      return;
    }
    var tool := host.registry[call.name];
    var item := RunTool(host, ordinal, call.id, tool, call.context.value);
    if tool.asyncMode {
      pending := pending + multiset{item};
      var next := vm.resume(at, Pending);
      progress, stdout := next.progress, stdout + next.printed;
    } else {
      records := records + [item.record];
      var next := vm.resume(at, Direct(item.result));
      progress, stdout := next.progress, stdout + next.printed;
    }
  }

  /** The ResolveFutures arm: drain what is ready, else wait, then tell the VM. */
  method ResolveTurn<S, V>(vm: Machine<S, V>, at: S, ids: seq<CallId>, stdout0: string,
                           pending0: multiset<Item>, ready0: seq<Item>, records0: seq<CallRecord>, ghost s: State<S, V>)
    returns (progress: Progress<S, V>, stdout: string, pending: multiset<Item>, ready: seq<Item>,
             records: seq<CallRecord>, exit: Option<Outcome<S, V>>, ghost arrived: seq<Item>)
    requires s.exit.None?
    requires Tracks(s, ResolveFutures(at, ids), stdout0, s.books.started, |s.books.calls|, pending0, ready0, records0)
    ensures Legal(s, arrived)
    ensures Tracks(AdvanceResolve(vm, s, arrived), progress, stdout, s.books.started, |s.books.calls|,
                   pending, ready, records)
    ensures AdvanceResolve(vm, s, arrived).exit == exit
    ensures exit.Some? <==> forall x: Item :: x in pending0 || x in ready0 ==> x.id !in ids
  {
    progress, stdout, pending, exit, arrived := ResolveFutures(at, ids), stdout0, pending0, None, [];
    var resolved;
    resolved, ready, records := DrainReadyFor(ids, ready0, records0);
    if resolved == [] {
      resolved, pending, ready, records, arrived := AwaitOne(ids, pending, ready, records);
    }
    Joined(s.books, ids, arrived);
    NoHitsExactly(s.books, ids, arrived);
    if resolved == [] {
      exit := Some(Errored(vm.intoRepl(at), STUCK_ERROR, stdout, records));
    } else {
      var next := vm.resume(at, Resolved(resolved));
      progress, stdout := next.progress, stdout + next.printed;
    }
  }

  lemma Joined(b: Books, ids: seq<CallId>, arrived: seq<Item>)
    requires arrived == [] || Wanted(b.ready, ids) == []
    ensures arrived == [] ==> Hits(b, ids, arrived) == Wanted(b.ready, ids)
                              && Unwanted(b.ready, ids) + Unwanted(arrived, ids) == Unwanted(b.ready, ids)
    ensures Wanted(b.ready, ids) == [] ==> Hits(b, ids, arrived) == Wanted(arrived, ids)
    ensures Results(Hits(b, ids, arrived)) == [] <==> Hits(b, ids, arrived) == []
    ensures Results([]) == [] && Records([]) == []
  {}

  lemma RecordsBound<S, V>(host: Host, vm: Machine<S, V>, start: Yield<S, V>,
                           states: seq<State<S, V>>, arrivals: seq<seq<Item>>)
    requires IsRun(host, vm, start, states, arrivals) && states[|states|-1].exit.Some?
    ensures host.maxCalls < U32_MAX ==> |states[|states|-1].exit.value.records| <= host.maxCalls
  {
    if host.maxCalls < U32_MAX {
      StepBound(host, vm, start, states, arrivals, |states| - 1);
      RunConserves(host, vm, start, states, arrivals, |states| - 1);
    }
  }

  /** The loop of the dispatcher, for at most `fuel` turns. The states and arrivals
      are a run of the transition system; `result` is its exit. */
  method RunReplSnippet<S, V>(host: Host, vm: Machine<S, V>, start: Yield<S, V>, fuel: nat)
    returns (result: Option<Outcome<S, V>>, ghost states: seq<State<S, V>>, ghost arrivals: seq<seq<Item>>)
    ensures IsRun(host, vm, start, states, arrivals)
    ensures result == states[|states|-1].exit
    ensures result.None? ==> |arrivals| == fuel
    ensures result.Some? && host.maxCalls < U32_MAX ==> |result.value.records| <= host.maxCalls
  {
    var progress, stdout := start.progress, start.printed;
    var records: seq<CallRecord>, started: U32 := [], 0;
    var pending: multiset<Item>, ready: seq<Item> := multiset{}, [];
    var turns, ordinal := 0, 0;
    states, arrivals := [Initial(start)], [];
    while turns < fuel
      invariant turns == |arrivals| <= fuel
      invariant IsRun(host, vm, start, states, arrivals) && states[turns].exit.None?
      invariant Tracks(states[turns], progress, stdout, started, ordinal, pending, ready, records)
    {
      ghost var s, arrived: seq<Item> := states[turns], [];
      var exit: Option<Outcome<S, V>> := None;
      match progress {
        case Complete(repl, value) =>
          exit := Some(Completed(repl, value, stdout, records));
        case Failed(repl, error) =>
          exit := Some(Errored(repl, error, stdout, records));
        case NameLookup(at, name) =>
          var next := vm.resume(at, Looked(if name in host.registry then Some(host.registry[name]) else None));
          progress, stdout := next.progress, stdout + next.printed;
        case OsCall(at, denial) =>
          var next := vm.resume(at, Direct(Raise(denial)));
          progress, stdout := next.progress, stdout + next.printed;
        case FunctionCall(at, call) =>
          progress, stdout, started, pending, records, exit :=
            CallTurn(host, vm, at, call, stdout, started, ordinal, pending, records, s);
          ordinal := ordinal + 1;
        case ResolveFutures(at, ids) =>
          progress, stdout, pending, ready, records, exit, arrived :=
            ResolveTurn(vm, at, ids, stdout, pending, ready, records, s);
      }
      turns := turns + 1;
      ExtendRun(host, vm, start, states, arrivals, arrived);
      states, arrivals := states + [Advance(host, vm, s, arrived)], arrivals + [arrived];
      if exit.Some? {
        RecordsBound(host, vm, start, states, arrivals);
        return exit, states, arrivals;
      }
    }
    result := None;
  }
}
