/** The TypeScript backend's queue: one worker thread owns all sessions and handles commands
    one after another, each with a one-shot reply. */
module DenoActor {
  import opened Sessions

  // ----- The queue -------------------------------------------------------------------

  datatype Command<+P> = Operation(op: Op<P>) | Shutdown

  /** What a client gets through its one-shot channel. */
  datatype Answer<+P> = Replied(reply: Reply<P>) | ShutdownDone | WorkerClosed

  datatype Phase = Running | Stopped | Gone   // Stopped: out of the loop, the queue still exists

  datatype System<+D, +P> = System(
    sent: seq<Command<P>>,                     // history: every command sent; its index is its ticket
    queue: seq<(nat, Command<P>)>,
    sessions: Store<D>,
    phase: Phase,
    taken: nat,                                // history: how many commands were dequeued
    answers: map<nat, Answer<P>>)

  datatype Step<+P> = Send(command: Command<P>) | Take | Drop

  function Start<D, P>(): System<D, P> {
    System([], [], map[], Running, 0, map[])
  }

  predicate Possible<D, P>(s: System<D, P>, step: Step<P>) {
    match step
    case Send(_) => true
    case Take => s.phase.Running? && s.queue != []
    case Drop => s.phase.Stopped?
  }

  function Tickets<P>(queue: seq<(nat, Command<P>)>): set<nat> {
    set i | 0 <= i < |queue| :: queue[i].0
  }

  function Closed<P>(tickets: set<nat>): map<nat, Answer<P>> {
    map t | t in tickets :: WorkerClosed
  }

  /** Sending fails at once when the queue is gone. Dropping the queue drops every reply sender in it. */
  ghost function Apply<D, P>(b: Backend<D, P>, s: System<D, P>, step: Step<P>): System<D, P>
    requires Possible(s, step)
  {
    match step
    case Send(command) =>
      var ticket := |s.sent|;
      var s1 := s.(sent := s.sent + [command]);
      if s.phase.Gone? then s1.(answers := s.answers[ticket := WorkerClosed])
      else s1.(queue := s.queue + [(ticket, command)])
    case Take =>
      var (ticket, command) := s.queue[0];
      var s1 := s.(queue := s.queue[1..], taken := s.taken + 1);
      (match command
       case Shutdown => s1.(phase := Stopped, answers := s.answers[ticket := ShutdownDone])
       case Operation(op) =>
         var (sessions, reply) := Serial(b, s.sessions, op);
         s1.(sessions := sessions, answers := s.answers[ticket := Replied(reply)]))
    case Drop =>
      s.(phase := Gone, queue := [],
         answers := s.answers + Closed(Tickets(s.queue)))
  }

  ghost predicate IsRun<D, P>(b: Backend<D, P>, states: seq<System<D, P>>, steps: seq<Step<P>>) {
    && |states| == |steps| + 1
    && states[0] == Start()
    && forall i :: 0 <= i < |steps| ==> Possible(states[i], steps[i]) && states[i+1] == Apply(b, states[i], steps[i])
  }

  function Ops<P>(commands: seq<Command<P>>): seq<Op<P>> {
    if commands == [] then []
    else
      var n := |commands| - 1;
      if commands[n].Operation? then Ops(commands[..n]) + [commands[n].op] else Ops(commands[..n])
  }

  /** What the k-th command must be answered once it has been dequeued. */
  ghost function Expected<D, P>(b: Backend<D, P>, commands: seq<Command<P>>, k: nat): Answer<P>
    requires k < |commands|
  {
    match commands[k]
    case Shutdown => ShutdownDone
    case Operation(op) => Replied(Serial(b, SerialAll(b, map[], Ops(commands[..k])), op).1)
  }

  /** Nothing was handled after a shutdown, and the queue holds the rest, in order. */
  ghost predicate InOrder<D, P>(s: System<D, P>) {
    && s.taken <= |s.sent|
    && (forall k :: 0 <= k < s.taken - 1 ==> s.sent[k].Operation?)
    && (if s.taken == 0 then s.phase.Running? else s.sent[s.taken-1].Shutdown? <==> !s.phase.Running?)
    && (if s.phase.Gone? then s.queue == []
        else |s.queue| == |s.sent| - s.taken
             && forall i :: 0 <= i < |s.queue| ==> s.queue[i] == (s.taken + i, s.sent[s.taken + i]))
  }

  /** The serial reply for what was dequeued, closed for what was dropped, nothing for the rest. */
  ghost predicate Answered<D, P>(b: Backend<D, P>, s: System<D, P>)
    requires s.taken <= |s.sent|
  {
    && (forall t: nat :: t in s.answers <==> t < (if s.phase.Gone? then |s.sent| else s.taken))
    && (forall t: nat :: t < s.taken ==> s.answers[t] == Expected(b, s.sent, t))
    && (s.phase.Gone? ==> forall t: nat :: s.taken <= t < |s.sent| ==> s.answers[t] == WorkerClosed)
  }

  ghost predicate Linear<D, P>(b: Backend<D, P>, s: System<D, P>) {
    && InOrder(s)
    && s.sessions == SerialAll(b, map[], Ops(s.sent[..s.taken]))
    && Answered(b, s)
  }

  lemma ExpectedStable<D, P>(b: Backend<D, P>, commands: seq<Command<P>>, more: Command<P>, k: nat)
    requires k < |commands|
    ensures Expected(b, commands + [more], k) == Expected(b, commands, k)
  {
    assert (commands + [more])[..k] == commands[..k];
  }

  lemma SendLinear<D, P>(b: Backend<D, P>, s: System<D, P>, command: Command<P>)
    requires Linear(b, s)
    ensures Linear(b, Apply(b, s, Send(command)))
  {
    hide Serial, SerialAll, Ops, Expected;
    forall t: nat | t < s.taken ensures Expected(b, s.sent + [command], t) == Expected(b, s.sent, t) {
      ExpectedStable(b, s.sent, command, t);
    }
    assert (s.sent + [command])[..s.taken] == s.sent[..s.taken];
  }

  lemma TakeFolds<D, P>(b: Backend<D, P>, commands: seq<Command<P>>, k: nat)
    requires k < |commands|
    ensures SerialAll(b, map[], Ops(commands[..k+1]))
         == match commands[k]
            case Shutdown => SerialAll(b, map[], Ops(commands[..k]))
            case Operation(op) => Serial(b, SerialAll(b, map[], Ops(commands[..k])), op).0
  {
    assert commands[..k+1][..k] == commands[..k];
    var ops := Ops(commands[..k+1]);
    if commands[k].Operation? {
      assert ops[..|ops|-1] == Ops(commands[..k]);
    }
  }

  lemma TakeLinear<D, P>(b: Backend<D, P>, s: System<D, P>)
    requires Linear(b, s) && Possible(s, Take)
    ensures Linear(b, Apply(b, s, Take))
  {
    hide Serial, SerialAll, Ops;
    assert s.queue[0] == (s.taken, s.sent[s.taken]);
    TakeFolds(b, s.sent, s.taken);
    var s' := Apply(b, s, Take);
    assert InOrder(s');
    assert s'.answers == s.answers[s.taken := Expected(b, s.sent, s.taken)];
  }

  lemma DropLinear<D, P>(b: Backend<D, P>, s: System<D, P>)
    requires Linear(b, s) && Possible(s, Drop)
    ensures Linear(b, Apply(b, s, Drop))
  {
    hide Serial, SerialAll, Ops, Expected;
    forall t: nat ensures t in Tickets(s.queue) <==> s.taken <= t < |s.sent| {
      if s.taken <= t < |s.sent| {
        assert s.queue[t - s.taken] == (t, s.sent[t]);
      }
    }
  }

  lemma ApplyKeepsAnswers<D, P>(b: Backend<D, P>, s: System<D, P>, step: Step<P>, t: nat)
    requires Linear(b, s) && Possible(s, step) && t in s.answers
    ensures t in Apply(b, s, step).answers && Apply(b, s, step).answers[t] == s.answers[t]
  {
    hide Serial, SerialAll;
    if step.Take? {
      assert s.queue[0] == (s.taken, s.sent[s.taken]);
    } else if step.Drop? {
      assert forall q :: 0 <= q < |s.queue| ==> s.queue[q].0 != t;
    }
  }

  lemma {:induction false} RunIsLinear<D, P>(b: Backend<D, P>, states: seq<System<D, P>>, steps: seq<Step<P>>, i: nat)
    requires IsRun(b, states, steps) && i < |states|
    ensures Linear(b, states[i])
  {
    if i > 0 {
      RunIsLinear(b, states, steps, i - 1);
      match steps[i-1]
      case Send(command) => SendLinear(b, states[i-1], command);
      case Take => TakeLinear(b, states[i-1]);
      case Drop => DropLinear(b, states[i-1]);
    }
  }

  /** Linearization, for any number of clients sending in any order: the answer to a command is the
      serial reply after exactly the commands sent before it, or worker-closed when a shutdown came
      first; and once the worker is gone every command ever sent has its answer. */
  lemma ActorIsLinear<D, P>(b: Backend<D, P>, states: seq<System<D, P>>, steps: seq<Step<P>>, i: nat, t: nat)
    requires IsRun(b, states, steps) && i < |states| && t < |states[i].sent|
    ensures var s := states[i];
      var shut := exists k :: 0 <= k < t && s.sent[k].Shutdown?;
      && (t in s.answers ==> s.answers[t] == if shut then WorkerClosed else Expected(b, s.sent, t))
      && (s.phase.Gone? ==> t in s.answers)
      && (s.phase.Running? && t !in s.answers ==> exists q :: 0 <= q < |s.queue| && s.queue[q] == (t, s.sent[t]))
  {
    RunIsLinear(b, states, steps, i);
    var s := states[i];
    if t in s.answers {
      if t < s.taken {
        assert forall k :: 0 <= k < t ==> s.sent[k].Operation?;
      } else {
        assert s.sent[s.taken-1].Shutdown?;
      }
    } else if s.phase.Running? {
      assert s.queue[t - s.taken] == (t, s.sent[t]);
    }
  }

  /** A reply, once given, is never replaced. */
  lemma {:induction false} AnsweredOnce<D, P>(b: Backend<D, P>, states: seq<System<D, P>>, steps: seq<Step<P>>,
                                              i: nat, j: nat, t: nat)
    requires IsRun(b, states, steps) && i <= j < |states| && t in states[i].answers
    ensures t in states[j].answers && states[j].answers[t] == states[i].answers[t]
    decreases j - i
  {
    if i < j {
      hide IsRun;
      AnsweredOnce(b, states, steps, i, j - 1, t);
      StepKeepsAnswers(b, states, steps, j - 1, t);
    }
  }

  lemma StepKeepsAnswers<D, P>(b: Backend<D, P>, states: seq<System<D, P>>, steps: seq<Step<P>>, j: nat, t: nat)
    requires IsRun(b, states, steps) && j + 1 < |states| && t in states[j].answers
    ensures t in states[j+1].answers && states[j+1].answers[t] == states[j].answers[t]
  {
    hide Linear, Apply, Possible;
    RunIsLinear(b, states, steps, j);
    ApplyKeepsAnswers(b, states[j], steps[j], t);
  }
}
