/** Fan-out: a program that starts n calls and then gathers all results. Every
    order in which the futures finish gives the same answer. */
module MontyFanOut {
  import opened Core
  import opened MontyDispatcher
  import opened MontyLoop

  /** The gathering VM: the number of calls started, and the results so far. */
  datatype Gather = Gather(k: nat, got: map<CallId, ExtResult>)

  function Missing(calls: seq<Call>, got: map<CallId, ExtResult>): (ids: seq<CallId>)
    ensures forall id :: id in ids <==> id !in got && exists i :: 0 <= i < |calls| && calls[i].id == id
  {
    if calls == [] then []
    else
      var n := |calls| - 1;
      var ids := Missing(calls[..n], got);
      if calls[n].id in got then ids else ids + [calls[n].id]
  }

  function Values(calls: seq<Call>, got: map<CallId, ExtResult>): seq<ExtResult> {
    seq(|calls|, i requires 0 <= i < |calls| =>
      if calls[i].id in got then got[calls[i].id] else Raise(STUCK_ERROR))
  }

  function Absorb(got: map<CallId, ExtResult>, results: seq<(CallId, ExtResult)>): map<CallId, ExtResult> {
    if results == [] then got
    else
      var n := |results| - 1;
      Absorb(got, results[..n])[results[n].0 := results[n].1]
  }

  function Next(calls: seq<Call>, g: Gather): Yield<Gather, seq<ExtResult>> {
    if g.k < |calls| then Yield(FunctionCall(g, calls[g.k]), "")
    else
      var missing := Missing(calls, g.got);
      if missing == [] then Yield(Complete(g, Values(calls, g.got)), "")
      else Yield(ResolveFutures(g, missing), "")
  }

  function Resume(calls: seq<Call>, g: Gather, answer: Answer): Yield<Gather, seq<ExtResult>> {
    match answer
    case Pending => Next(calls, Gather(g.k + 1, g.got))
    case Direct(result) =>
      if g.k < |calls| then Next(calls, Gather(g.k + 1, g.got[calls[g.k].id := result])) else Next(calls, g)
    case Resolved(results) => Next(calls, Gather(g.k, Absorb(g.got, results)))
    case Looked(_) => Next(calls, g)
  }

  function GatherVm(calls: seq<Call>): Machine<Gather, seq<ExtResult>> {
    Machine((g, answer) => Resume(calls, g, answer), (g: Gather) => g)
  }

  /** Calls with distinct ids, all to registered tools, and no more than the limit. */
  ghost predicate FanOut(host: Host, calls: seq<Call>) {
    && DistinctCalls(calls)
    && (forall i :: 0 <= i < |calls| ==> Callable(host, calls[i]))
    && |calls| <= host.maxCalls
  }

  /** The VM holds exactly the delivered results. */
  ghost predicate Holds(got: map<CallId, ExtResult>, delivered: seq<Item>) {
    && (forall x :: x in delivered ==> x.id in got && got[x.id] == x.result)
    && (forall id :: id in got ==> exists x :: x in delivered && x.id == id)
  }

  /** The VM's state agrees with the host's books. */
  ghost predicate InStep(calls: seq<Call>, b: Books, g: Gather) {
    && g.k <= |calls| && b.calls == calls[..g.k] && b.refused == 0
    && Holds(g.got, b.delivered)
  }

  ghost predicate Gathering(calls: seq<Call>, s: State<Gather, seq<ExtResult>>, g: Gather) {
    && s.exit.None?
    && s.progress == Next(calls, g).progress
    && InStep(calls, s.books, g)
  }

  lemma LastDistinct(items: seq<Item>, x: Item)
    requires DistinctIds(items + [x])
    ensures DistinctIds(items)
    ensures forall y :: y in items ==> y.id != x.id
  {
    var all := items + [x];
    assert all[|items|] == x;
    assert forall i :: 0 <= i < |items| ==> all[i] == items[i];
  }

  lemma {:induction false} AbsorbHolds(got: map<CallId, ExtResult>, delivered: seq<Item>, hits: seq<Item>)
    requires Holds(got, delivered) && DistinctIds(delivered + hits)
    ensures Holds(Absorb(got, Results(hits)), delivered + hits)
  {
    if hits == [] {
      assert delivered + hits == delivered;
    } else {
      var n := |hits| - 1;
      var front, x := hits[..n], hits[n];
      assert delivered + hits == (delivered + front) + [x];
      LastDistinct(delivered + front, x);
      AbsorbHolds(got, delivered, front);
      assert Results(hits)[..n] == Results(front);
    }
  }

  ghost predicate Sound(host: Host, calls: seq<Call>, b: Books) {
    && FanOut(host, calls) && Balanced(b) && Authentic(host, b)
    && b.refused == 0 && |b.calls| <= |calls| && b.calls == calls[..|b.calls|]
  }

  /** Every item in the books is the outcome of a call. */
  lemma Origin(host: Host, calls: seq<Call>, b: Books, x: Item) returns (i: nat)
    requires Sound(host, calls, b)
    requires x in b.delivered || x in b.pending || x in b.ready
    ensures i < |b.calls| && x == ItemOf(host, i, calls[i])
  {
    assert Started(b) == b.calls;
    var all := ItemsOf(host, b.calls);
    assert multiset(all) == multiset(b.delivered) + b.pending + multiset(b.ready);
    assert x in multiset(all);
    i :| 0 <= i < |all| && all[i] == x;
  }

  /** Every call's outcome is in exactly one place. */
  lemma Place(host: Host, calls: seq<Call>, b: Books, i: nat)
    requires Sound(host, calls, b) && i < |b.calls|
    ensures var x := ItemOf(host, i, calls[i]);
      multiset(b.delivered)[x] + b.pending[x] + multiset(b.ready)[x] == 1
  {
    assert Started(b) == b.calls;
    var all := ItemsOf(host, b.calls);
    assert multiset(all) == multiset(b.delivered) + b.pending + multiset(b.ready);
    assert DistinctIds(all);
    assert all[i] in all;
    Once(all, all[i]);
  }

  lemma DeliveredDistinct(host: Host, calls: seq<Call>, b: Books)
    requires Sound(host, calls, b)
    ensures DistinctIds(b.delivered)
  {
    assert Started(b) == b.calls;
    var all := ItemsOf(host, b.calls);
    assert multiset(all) == multiset(b.delivered) + b.pending + multiset(b.ready);
    assert DistinctIds(all);
    DistinctBelow(all, b.delivered);
  }

  lemma Without(items: seq<Item>, i: nat)
    requires i < |items|
    ensures var rest := items[..i] + items[i+1..];
      && multiset(rest) == multiset(items) - multiset{items[i]}
      && multiset(Records(items)) == multiset(Records(rest)) + multiset{items[i].record}
  {
    var p, x, q := items[..i], items[i], items[i+1..];
    assert items == p + [x] + q;
    assert Records(items) == Records(p) + [x.record] + Records(q);
    assert Records(p + q) == Records(p) + Records(q);
  }

  lemma {:induction false} RecordsPermute(a: seq<Item>, b: seq<Item>)
    requires multiset(a) == multiset(b)
    ensures multiset(Records(a)) == multiset(Records(b))
  {
    if a == [] {
      assert |multiset(b)| == 0;
    } else {
      assert a[0] in multiset(b);
      var i :| 0 <= i < |b| && b[i] == a[0];
      Without(a, 0);
      Without(b, i);
      RecordsPermute(a[..0] + a[1..], b[..i] + b[i+1..]);
    }
  }

  /** The outcome of call i at position i. */
  function Answers(host: Host, calls: seq<Call>): seq<ExtResult>
    requires forall i :: 0 <= i < |calls| ==> Callable(host, calls[i])
  {
    seq(|calls|, i requires 0 <= i < |calls| => ItemOf(host, i, calls[i]).result)
  }

  /** The answer every schedule must give. */
  ghost predicate IsFanOutAnswer(host: Host, calls: seq<Call>, outcome: Outcome<Gather, seq<ExtResult>>)
    requires FanOut(host, calls)
  {
    && outcome.Completed?
    && outcome.value == Answers(host, calls)
    && multiset(outcome.records) == multiset(Records(ItemsOf(host, calls)))
  }

  lemma DeliveredAt(host: Host, calls: seq<Call>, b: Books, g: Gather, i: nat)
    requires Sound(host, calls, b) && InStep(calls, b, g)
    requires i < |calls| && calls[i].id in g.got
    ensures g.got[calls[i].id] == ItemOf(host, i, calls[i]).result
    ensures ItemOf(host, i, calls[i]) in b.delivered
  {
    var x :| x in b.delivered && x.id == calls[i].id;
    var j := Origin(host, calls, b, x);
    assert i == j;
  }

  lemma ValueAt(host: Host, calls: seq<Call>, b: Books, g: Gather, i: nat)
    requires Sound(host, calls, b) && InStep(calls, b, g)
    requires i < |calls| && Missing(calls, g.got) == []
    ensures Values(calls, g.got)[i] == ItemOf(host, i, calls[i]).result
    ensures ItemOf(host, i, calls[i]) in b.delivered
  {
    assert calls[i].id !in Missing(calls, g.got);
    DeliveredAt(host, calls, b, g, i);
  }

  lemma AllDelivered(host: Host, calls: seq<Call>, b: Books, g: Gather)
    requires Sound(host, calls, b) && InStep(calls, b, g)
    requires g.k == |calls| && Missing(calls, g.got) == []
    ensures forall i :: 0 <= i < |calls| ==> Values(calls, g.got)[i] == ItemOf(host, i, calls[i]).result
    ensures forall i :: 0 <= i < |calls| ==> ItemOf(host, i, calls[i]) in b.delivered
  {
    hide Balanced, Authentic, DistinctCalls, InStep, Missing, ItemOf;
    forall i | 0 <= i < |calls|
      ensures Values(calls, g.got)[i] == ItemOf(host, i, calls[i]).result
      ensures ItemOf(host, i, calls[i]) in b.delivered
    {
      ValueAt(host, calls, b, g, i);
    }
  }

  lemma CompleteAnswer(host: Host, calls: seq<Call>, s: State<Gather, seq<ExtResult>>, g: Gather)
    requires Sound(host, calls, s.books) && Gathering(calls, s, g) && s.progress.Complete?
    ensures s.progress.value == Answers(host, calls)
    ensures multiset(Records(s.books.delivered)) == multiset(Records(ItemsOf(host, calls)))
  {
    AllDelivered(host, calls, s.books, g);
    assert s.books.calls == calls;
    NothingLeft(host, calls, s.books);
    RecordsPermute(ItemsOf(host, calls), s.books.delivered);
  }

  lemma NothingLeft(host: Host, calls: seq<Call>, b: Books)
    requires Sound(host, calls, b) && b.calls == calls
    requires forall i :: 0 <= i < |calls| ==> ItemOf(host, i, calls[i]) in b.delivered
    ensures multiset(b.delivered) == multiset(ItemsOf(host, calls))
  {
    assert Started(b) == calls;
    forall x: Item ensures x !in b.pending && x !in multiset(b.ready) {
      if x in b.pending || x in b.ready {
        var i := Origin(host, calls, b, x);
        Place(host, calls, b, i);
        assert false;
      }
    }
    assert b.pending == multiset{} && multiset(b.ready) == multiset{};
  }

  lemma CallInStep(host: Host, calls: seq<Call>, b: Books, g: Gather)
    requires Sound(host, calls, b) && InStep(calls, b, g) && g.k < |calls|
    ensures var item := ItemOf(host, g.k, calls[g.k]);
      && InStep(calls, BookAsync(CountCall(b, calls[g.k]), item), Gather(g.k + 1, g.got))
      && InStep(calls, BookDirect(CountCall(b, calls[g.k]), item),
                Gather(g.k + 1, g.got[calls[g.k].id := item.result]))
  {
    assert calls[..g.k] + [calls[g.k]] == calls[..g.k+1];
    forall x | x in b.delivered ensures x.id != calls[g.k].id {
      var i := Origin(host, calls, b, x);
    }
  }

  lemma SomethingArrives(host: Host, calls: seq<Call>, b: Books, g: Gather, arrived: seq<Item>)
    requires Sound(host, calls, b) && InStep(calls, b, g) && b.calls == calls
    requires Missing(calls, g.got) != [] && LegalArrivals(b, Missing(calls, g.got), arrived)
    ensures Hits(b, Missing(calls, g.got), arrived) != []
  {
    var ids := Missing(calls, g.got);
    assert ids[0] in ids;
    var i :| 0 <= i < |calls| && calls[i].id == ids[0];
    var x := ItemOf(host, i, calls[i]);
    Place(host, calls, b, i);
    assert x !in b.delivered;
    assert x in b.pending || x in b.ready;
    NoHitsExactly(b, ids, arrived);
  }

  lemma ResolveInStep(host: Host, calls: seq<Call>, b: Books, g: Gather, arrived: seq<Item>)
    requires Sound(host, calls, b) && InStep(calls, b, g) && b.calls == calls
    requires Missing(calls, g.got) != [] && LegalArrivals(b, Missing(calls, g.got), arrived)
    ensures var hits := Hits(b, Missing(calls, g.got), arrived);
      InStep(calls, BookResolve(b, Missing(calls, g.got), arrived), Gather(g.k, Absorb(g.got, Results(hits))))
  {
    var ids := Missing(calls, g.got);
    var b' := BookResolve(b, ids, arrived);
    assert DistinctIds(b.delivered + Hits(b, ids, arrived)) by {
      ResolveBalances(b, ids, arrived);
      assert Started(b') == Started(b);
      DeliveredDistinct(host, calls, b');
    }
    AbsorbHolds(g.got, b.delivered, Hits(b, ids, arrived));
  }

  lemma GatherCall(host: Host, calls: seq<Call>, s: State<Gather, seq<ExtResult>>, g: Gather)
    returns (g': Gather)
    requires Sound(host, calls, s.books) && Gathering(calls, s, g) && g.k < |calls|
    ensures var s' := AdvanceCall(host, GatherVm(calls), s);
      Gathering(calls, s', g') && Turns(s'.books) == Turns(s.books) + 1 && Slack(s'.books) == Slack(s.books)
  {
    var call := calls[g.k];
    CallInStep(host, calls, s.books, g);
    assert Refusal(host, call, SaturatingInc(s.books.started)).None?;
    g' := if host.registry[call.name].asyncMode then Gather(g.k + 1, g.got)
          else Gather(g.k + 1, g.got[call.id := ItemOf(host, g.k, call).result]);
  }

  lemma GatherResolve(host: Host, calls: seq<Call>, s: State<Gather, seq<ExtResult>>, g: Gather, arrived: seq<Item>)
    returns (g': Gather)
    requires Sound(host, calls, s.books) && Gathering(calls, s, g) && s.books.calls == calls
    requires s.progress.ResolveFutures? && Legal(s, arrived)
    ensures var s' := AdvanceResolve(GatherVm(calls), s, arrived);
      Gathering(calls, s', g') && Turns(s'.books) == Turns(s.books) + 1 && Slack(s'.books) >= Slack(s.books)
  {
    hide Sound, LegalArrivals, Hits, Results, Absorb, Missing, Records;
    SomethingArrives(host, calls, s.books, g, arrived);
    ResolveInStep(host, calls, s.books, g, arrived);
    g' := Gather(g.k, Absorb(g.got, Results(Hits(s.books, s.progress.ids, arrived))));
    hide InStep;
  }

  function Turns(b: Books): nat { |b.calls| + b.resolves }

  /** Deliveries beyond one per resolve. */
  function Slack(b: Books): int { |b.awaited| - b.resolves }

  /** Every state of a gathering run is still gathering, after one turn per call and
      resolve, or has stopped with the one right answer. */
  lemma {:induction false} GatherRun(host: Host, calls: seq<Call>,
                                     states: seq<State<Gather, seq<ExtResult>>>, arrivals: seq<seq<Item>>, k: nat)
    returns (g: Gather)
    requires FanOut(host, calls) && k < |states|
    requires IsRun(host, GatherVm(calls), Next(calls, Gather(0, map[])), states, arrivals)
    ensures states[k].exit.None? ==>
      && Gathering(calls, states[k], g)
      && k == Turns(states[k].books) && Slack(states[k].books) >= 0
    ensures states[k].exit.Some? ==> IsFanOutAnswer(host, calls, states[k].exit.value)
  {
    hide Gathering, Sound, Advance, Legal, IsFanOutAnswer, Conserved, Authentic;
    hide Initial, Next, GatherVm, FanOut, Turns, Slack;
    if k == 0 {
      g := Gather(0, map[]);
      StartGathers(calls);
    } else {
      g := GatherRun(host, calls, states, arrivals, k - 1);
      var start := Next(calls, Gather(0, map[]));
      RunConserves(host, GatherVm(calls), start, states, arrivals, k - 1);
      RunAuthentic(host, GatherVm(calls), start, states, arrivals, k - 1);
      SoundAt(host, calls, states[k-1], g);
      g := GatherTurn(host, calls, states[k-1], g, arrivals[k-1]);
    }
  }

  lemma StartGathers(calls: seq<Call>)
    ensures var s := Initial(Next(calls, Gather(0, map[])));
      s.exit.None? && Gathering(calls, s, Gather(0, map[])) && Turns(s.books) == 0 && Slack(s.books) == 0
  {}

  lemma SoundAt(host: Host, calls: seq<Call>, s: State<Gather, seq<ExtResult>>, g: Gather)
    requires FanOut(host, calls) && Conserved(s) && Authentic(host, s.books) && Gathering(calls, s, g)
    ensures Sound(host, calls, s.books)
  {
    hide FanOut, Authentic, Balanced;
  }

  lemma GatherTurn(host: Host, calls: seq<Call>, s: State<Gather, seq<ExtResult>>, g: Gather, arrived: seq<Item>)
    returns (g': Gather)
    requires Sound(host, calls, s.books) && Gathering(calls, s, g) && Legal(s, arrived)
    ensures var s' := Advance(host, GatherVm(calls), s, arrived);
      && (s'.exit.None? ==>
            Gathering(calls, s', g') && Turns(s'.books) == Turns(s.books) + 1 && Slack(s'.books) >= Slack(s.books))
      && (s'.exit.Some? ==> IsFanOutAnswer(host, calls, s'.exit.value))
  {
    g' := g;
    if s.progress.Complete? {
      CompleteAnswer(host, calls, s, g);
    } else if g.k < |calls| {
      g' := GatherCall(host, calls, s, g);
    } else {
      g' := GatherResolve(host, calls, s, g, arrived);
    }
    hide Sound, InStep, Legal, IsFanOutAnswer, AdvanceCall, AdvanceResolve;
  }

  /** A gathering run cannot go on for more than 2n + 1 turns. */
  lemma GatherStops(host: Host, calls: seq<Call>, states: seq<State<Gather, seq<ExtResult>>>, arrivals: seq<seq<Item>>)
    requires FanOut(host, calls) && |arrivals| == 2 * |calls| + 1
    requires IsRun(host, GatherVm(calls), Next(calls, Gather(0, map[])), states, arrivals)
    ensures states[|states|-1].exit.Some?
  {
    var k := |states| - 1;
    var g := GatherRun(host, calls, states, arrivals, k);
    RunConserves(host, GatherVm(calls), Next(calls, Gather(0, map[])), states, arrivals, k);
    var b := states[k].books;
    assert |multiset(b.delivered)| == |multiset(b.awaited)| + |multiset(b.direct)|;
  }

  /** Runs the fan-out program: whatever order the futures finish in, at most 2n + 1
      turns give the outcome of call i at position i, and the audit log is a
      permutation of the n calls. */
  method RunFanOut(host: Host, calls: seq<Call>) returns (values: seq<ExtResult>, records: seq<CallRecord>)
    requires FanOut(host, calls)
    ensures |values| == |calls| && forall i :: 0 <= i < |calls| ==> values[i] == ItemOf(host, i, calls[i]).result
    ensures multiset(records) == multiset(Records(ItemsOf(host, calls)))
  {
    var start := Next(calls, Gather(0, map[]));
    var result, states, arrivals := RunReplSnippet(host, GatherVm(calls), start, 2 * |calls| + 1);
    ghost var g := GatherRun(host, calls, states, arrivals, |states| - 1);
    if result.None? {
      GatherStops(host, calls, states, arrivals);
    }
    values, records := result.value.value, result.value.records;
  }
}
