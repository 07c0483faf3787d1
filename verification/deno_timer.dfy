/** The wall-clock guard of one TypeScript execution: the main thread runs the script
    and stops the timer; the timer thread sleeps on a condition variable and, when time
    is up first, asks the engine to terminate. Any number of runs follow one another on
    the same engine, whose termination flag is the only state they share. */
module DenoTimer {

  /** How the script and its event loop ended, as the main thread saw it. */
  datatype Verdict = ScriptFailed | Fulfilled | Rejected | Elapsed

  datatype Result = Done | Failure | Timeout

  datatype Main =
    | Idle                              // between runs
    | Script                            // in execute_script
    | Events                            // in the event loop, under its own timeout
    | Stopping(v: Verdict)              // wants the mutex
    | Setting(v: Verdict)               // holds the mutex
    | Notifying(v: Verdict)             // holds the mutex; `done` is set
    | Unlocking(v: Verdict)             // holds the mutex for the last time
    | Joining(v: Verdict)               // waits for the timer thread
    | Checking(v: Verdict)              // the timer thread is gone; reads `timed_out`
    | Cancelling(v: Verdict)            // about to clear the termination flag
    | Terminating                       // event loop elapsed: about to set the flag itself
    | Unterminating                     // and about to clear it again
    | Returned(v: Verdict, result: Result)

  datatype Timer =
    | Starting                          // wants the mutex for the first time
    | Waiting                           // asleep in the condition variable, mutex released
    | Woken                             // wants the mutex again
    | Awake                             // holds the mutex, looks at `done`
    | Firing                            // holds the mutex, time is up, `done` is not set
    | Fired                             // holds the mutex, `timed_out` is stored
    | Leaving                           // holds the mutex for the last time
    | Exited

  datatype Owner = Nobody | MainThread | TimerThread

  datatype State = State(main: Main, timer: Timer, owner: Owner, done: bool, timedOut: bool, terminate: bool)

  ghost predicate Init(s: State) {
    s.main == Idle && s.timer == Exited && s.owner == Nobody && !s.terminate
  }

  /** A run starts with a fresh mutex, flag and timer thread. */
  ghost predicate Begin(s: State, s': State) {
    s.main.Idle? && s' == State(Script, Starting, Nobody, false, false, s.terminate)
  }

  /** The script, or the event loop, ends by itself or because of a termination. */
  ghost predicate Progress(s: State, s': State) {
    || (s.main.Script? && s' == s.(main := Stopping(ScriptFailed)))
    || (s.main.Script? && s' == s.(main := Events))
    || (s.main.Events? && exists v: Verdict :: !v.ScriptFailed? && s' == s.(main := Stopping(v)))
  }

  /** A notification wakes the timer thread only if it is asleep; otherwise it is lost. */
  function Notified(t: Timer): Timer {
    if t.Waiting? then Woken else t
  }

  ghost predicate StopTimer(s: State, s': State) {
    || (s.main.Stopping? && s.owner == Nobody && s' == s.(main := Setting(s.main.v), owner := MainThread))
    || (s.main.Setting? && s' == s.(main := Notifying(s.main.v), done := true))
    || (s.main.Notifying? && s' == s.(main := Unlocking(s.main.v), timer := Notified(s.timer)))
    || (s.main.Unlocking? && s' == s.(main := Joining(s.main.v), owner := Nobody))
    || (s.main.Joining? && s.timer == Exited && s' == s.(main := Checking(s.main.v)))
  }

  function ResultOf(v: Verdict): Result {
    match v
    case Fulfilled => Done
    case Elapsed => Timeout
    case _ => Failure
  }

  ghost predicate Conclude(s: State, s': State) {
    || (s.main.Checking? && s.timedOut && s' == s.(main := Cancelling(s.main.v)))
    || (s.main.Checking? && !s.timedOut && !s.main.v.Elapsed?
        && s' == s.(main := Returned(s.main.v, ResultOf(s.main.v))))
    || (s.main.Checking? && !s.timedOut && s.main.v.Elapsed? && s' == s.(main := Terminating))
    || (s.main.Cancelling? && s' == s.(main := Returned(s.main.v, Timeout), terminate := false))
    || (s.main.Terminating? && s' == s.(main := Unterminating, terminate := true))
    || (s.main.Unterminating? && s' == s.(main := Returned(Elapsed, Timeout), terminate := false))
    || (s.main.Returned? && s' == s.(main := Idle))
  }

  ghost predicate MainStep(s: State, s': State) {
    Begin(s, s') || Progress(s, s') || StopTimer(s, s') || Conclude(s, s')
  }

  /** Waking up without a notification: the time is up, or nothing happened at all. No property
      below may count on it. */
  ghost predicate WakeUp(s: State, s': State) {
    s.timer.Waiting? && s' == s.(timer := Woken)
  }

  ghost predicate TimerStep(s: State, s': State) {
    || ((s.timer.Starting? || s.timer.Woken?) && s.owner == Nobody && s' == s.(timer := Awake, owner := TimerThread))
    || (s.timer.Awake? && s.done && s' == s.(timer := Leaving))
    || (s.timer.Awake? && !s.done && s' == s.(timer := Waiting, owner := Nobody))
    || (s.timer.Awake? && !s.done && s' == s.(timer := Firing))
    || (s.timer.Firing? && s' == s.(timer := Fired, timedOut := true))
    || (s.timer.Fired? && s' == s.(timer := Leaving, terminate := true))
    || (s.timer.Leaving? && s' == s.(timer := Exited, owner := Nobody))
  }

  ghost predicate Next(s: State, s': State) {
    MainStep(s, s') || TimerStep(s, s') || WakeUp(s, s')
  }

  /** Any interleaving of the two threads, over any number of runs. */
  ghost predicate Behaviour(states: seq<State>) {
    states != [] && Init(states[0]) && forall i :: 0 <= i < |states| - 1 ==> Next(states[i], states[i+1])
  }

  predicate HoldsMutex(t: Timer) {
    t.Awake? || t.Firing? || t.Fired? || t.Leaving?
  }

  predicate TimerGone(m: Main) {
    m.Idle? || m.Checking? || m.Cancelling? || m.Terminating? || m.Unterminating? || m.Returned?
  }

  ghost predicate Inv(s: State) {
    && (s.owner == TimerThread <==> HoldsMutex(s.timer))
    && (s.owner == MainThread <==> s.main.Setting? || s.main.Notifying? || s.main.Unlocking?)
    && (TimerGone(s.main) ==> s.timer.Exited?)
    && (s.main.Notifying? || s.main.Unlocking? || s.main.Joining? || (TimerGone(s.main) && !s.main.Idle?) ==> s.done)
    // Asleep with `done` set, the timer thread is still to be notified.
    && (s.timer.Waiting? && s.done ==> s.main.Notifying?)
    && (s.main.Script? || s.main.Events? || s.main.Stopping? || s.main.Setting? ==> !s.done)
    // The timer sets the engine's flag after its own, and only the main thread clears it.
    && (s.timedOut && !s.main.Idle? ==> s.timer.Fired? || s.timer.Leaving? || s.timer.Exited?)
    && (s.timer.Fired? ==> s.timedOut)
    && ((s.timer.Leaving? || s.timer.Exited?) && !s.main.Idle? ==> s.done || s.timedOut)
    && (s.terminate ==> s.main.Unterminating? || (s.timedOut && (s.timer.Leaving? || s.timer.Exited?)))
    && (s.main.Idle? || s.main.Returned? || s.main.Terminating? ==> !s.terminate)
    && (s.main.Cancelling? ==> s.timedOut)
    && (s.main.Terminating? || s.main.Unterminating? ==> !s.timedOut)
    && (s.main.Returned? ==> s.main.result == if s.timedOut then Timeout else ResultOf(s.main.v))
  }

  lemma InvStep(s: State, s': State)
    requires Inv(s) && Next(s, s')
    ensures Inv(s')
  {}

  lemma {:induction false} InvHolds(states: seq<State>, i: nat)
    requires Behaviour(states) && i < |states|
    ensures Inv(states[i])
  {
    if i > 0 {
      InvHolds(states, i - 1);
      InvStep(states[i-1], states[i]);
    }
  }

  /** When a run returns: the timer thread has finished, the engine's termination flag is clear,
      the result is success exactly when the script was fulfilled and the timer never fired, a timeout
      exactly when the timer fired or the event loop's own timeout elapsed, and a failure exactly when
      the script failed or was rejected and the timer never fired. */
  lemma ReturnIsClean(states: seq<State>, i: nat)
    requires Behaviour(states) && i < |states| && states[i].main.Returned?
    ensures var s := states[i];
      && s.timer.Exited? && s.owner == Nobody && s.done && !s.terminate
      && (s.main.result == Done <==> s.main.v == Fulfilled && !s.timedOut)
      && (s.main.result == Timeout <==> s.timedOut || s.main.v == Elapsed)
      && (s.main.result == Failure <==> (s.main.v == ScriptFailed || s.main.v == Rejected) && !s.timedOut)
  {
    InvHolds(states, i);
  }

  /** A run that succeeds: the script is fulfilled while the timer thread sleeps. */
  lemma SuccessExample() returns (states: seq<State>)
    ensures Behaviour(states) && states[|states|-1].main == Returned(Fulfilled, Done)
  {
    var v := Fulfilled;
    states := [State(Idle, Exited, Nobody, true, false, false),
               State(Script, Starting, Nobody, false, false, false),
               State(Script, Awake, TimerThread, false, false, false),
               State(Script, Waiting, Nobody, false, false, false),
               State(Events, Waiting, Nobody, false, false, false),
               State(Stopping(v), Waiting, Nobody, false, false, false),
               State(Setting(v), Waiting, MainThread, false, false, false),
               State(Notifying(v), Waiting, MainThread, true, false, false),
               State(Unlocking(v), Woken, MainThread, true, false, false),
               State(Joining(v), Woken, Nobody, true, false, false),
               State(Joining(v), Awake, TimerThread, true, false, false),
               State(Joining(v), Leaving, TimerThread, true, false, false),
               State(Joining(v), Exited, Nobody, true, false, false),
               State(Checking(v), Exited, Nobody, true, false, false),
               State(Returned(v, Done), Exited, Nobody, true, false, false)];
    assert Progress(states[4], states[5]) by { assert !v.ScriptFailed?; }
  }

  /** A run that the timer ends: it fires while the script runs, and the flag is clear on return. */
  lemma TimeoutExample() returns (states: seq<State>)
    ensures Behaviour(states) && states[|states|-1].main == Returned(ScriptFailed, Timeout)
  {
    var v := ScriptFailed;
    states := [State(Idle, Exited, Nobody, true, false, false),
               State(Script, Starting, Nobody, false, false, false),
               State(Script, Awake, TimerThread, false, false, false),
               State(Script, Firing, TimerThread, false, false, false),
               State(Script, Fired, TimerThread, false, true, false),
               State(Script, Leaving, TimerThread, false, true, true),
               State(Script, Exited, Nobody, false, true, true),
               State(Stopping(v), Exited, Nobody, false, true, true),
               State(Setting(v), Exited, MainThread, false, true, true),
               State(Notifying(v), Exited, MainThread, true, true, true),
               State(Unlocking(v), Exited, MainThread, true, true, true),
               State(Joining(v), Exited, Nobody, true, true, true),
               State(Checking(v), Exited, Nobody, true, true, true),
               State(Cancelling(v), Exited, Nobody, true, true, true),
               State(Returned(v, Timeout), Exited, Nobody, true, true, false)];
  }

  /** No termination leaks: a run always starts with the flag clear, and while its script runs
      the flag can only be set by its own timer. */
  lemma NoLeak(states: seq<State>, i: nat)
    requires Behaviour(states) && i < |states|
    ensures states[i].main.Idle? ==> !states[i].terminate
    ensures (states[i].main.Script? || states[i].main.Events?) && states[i].terminate ==> states[i].timedOut
  {
    InvHolds(states, i);
  }

  // ----- Nothing blocks for ever -------------------------------------------------

  /** No wake-up is lost: whether the notification finds the timer thread asleep or not, it is
      never asleep while the main thread waits for it to finish. */
  lemma NoLostWakeup(states: seq<State>, i: nat)
    requires Behaviour(states) && i < |states|
    ensures states[i].main.Joining? ==> !states[i].timer.Waiting?
  {
    InvHolds(states, i);
  }

  ghost predicate MainCanStep(s: State) {
    exists s' :: MainStep(s, s')
  }

  ghost predicate TimerCanStep(s: State) {
    exists s' :: TimerStep(s, s')
  }

  /** And the notification is what does it: there are runs after which a main thread that skipped it
      would wait for a timer thread that sleeps, with neither able to go on. */
  lemma NotificationIsNeeded() returns (states: seq<State>)
    ensures Behaviour(states)
    ensures var s := states[|states|-1];
      && s.main.Notifying?
      && var silent := s.(main := Joining(s.main.v), owner := Nobody);
         !MainCanStep(silent) && !TimerCanStep(silent)
  {
    var v := ScriptFailed;
    states := [State(Idle, Exited, Nobody, true, false, false),
               State(Script, Starting, Nobody, false, false, false),
               State(Script, Awake, TimerThread, false, false, false),
               State(Script, Waiting, Nobody, false, false, false),
               State(Stopping(v), Waiting, Nobody, false, false, false),
               State(Setting(v), Waiting, MainThread, false, false, false),
               State(Notifying(v), Waiting, MainThread, true, false, false)];
  }

  /** No reachable state is a deadlock, even if no sleeper ever wakes up by itself: when the main
      thread waits, the timer thread can move. */
  lemma NoDeadlock(states: seq<State>, i: nat)
    requires Behaviour(states) && i < |states|
    ensures MainCanStep(states[i]) || (TimerCanStep(states[i]) && (states[i].main.Stopping? || states[i].main.Joining?))
  {
    InvHolds(states, i);
    var s := states[i];
    match s.main
    case Idle => assert MainStep(s, State(Script, Starting, Nobody, false, false, s.terminate));
    case Script => assert MainStep(s, s.(main := Events));
    case Events => assert Progress(s, s.(main := Stopping(Rejected))) by { assert !Rejected.ScriptFailed?; }
      assert MainStep(s, s.(main := Stopping(Rejected)));
    case Stopping(v) =>
      if s.owner == Nobody {
        assert MainStep(s, s.(main := Setting(v), owner := MainThread));
      } else {
        TimerMoves(s);
      }
    case Setting(v) => assert MainStep(s, s.(main := Notifying(v), done := true));
    case Notifying(v) => assert MainStep(s, s.(main := Unlocking(v), timer := Notified(s.timer)));
    case Unlocking(v) => assert MainStep(s, s.(main := Joining(v), owner := Nobody));
    case Joining(v) =>
      if s.timer.Exited? {
        assert MainStep(s, s.(main := Checking(v)));
      } else {
        TimerMoves(s);
      }
    case Checking(v) =>
      assert MainStep(s, s.(main := Cancelling(v))) || MainStep(s, s.(main := Returned(v, ResultOf(v))))
          || MainStep(s, s.(main := Terminating));
    case Cancelling(v) => assert MainStep(s, s.(main := Returned(v, Timeout), terminate := false));
    case Terminating => assert MainStep(s, s.(main := Unterminating, terminate := true));
    case Unterminating => assert MainStep(s, s.(main := Returned(Elapsed, Timeout), terminate := false));
    case Returned(_, _) => assert MainStep(s, s.(main := Idle));
  }

  lemma TimerMoves(s: State)
    requires Inv(s) && !s.timer.Exited? && !s.timer.Waiting? && s.owner != MainThread
    ensures TimerCanStep(s)
  {
    match s.timer
    case Starting => assert TimerStep(s, s.(timer := Awake, owner := TimerThread));
    case Woken => assert TimerStep(s, s.(timer := Awake, owner := TimerThread));
    case Awake =>
      assert TimerStep(s, s.(timer := Leaving)) || TimerStep(s, s.(timer := Waiting, owner := Nobody));
    case Firing => assert TimerStep(s, s.(timer := Fired, timedOut := true));
    case Fired => assert TimerStep(s, s.(timer := Leaving, terminate := true));
    case Leaving => assert TimerStep(s, s.(timer := Exited, owner := Nobody));
  }

  /** Steps the timer thread still takes once `done` is set. */
  function Remaining(t: Timer): nat {
    match t
    case Starting => 3
    case Waiting => 4
    case Woken => 3
    case Awake => 2
    case Firing => 3
    case Fired => 2
    case Leaving => 1
    case Exited => 0
  }

  /** Once `done` is set the join cannot block for ever: no interleaving stays in it for more
      than three steps. */
  lemma {:induction false} JoinIsBounded(states: seq<State>, i: nat, j: nat)
    requires Behaviour(states) && i <= j < |states|
    requires forall k :: i <= k <= j ==> states[k].main.Joining?
    ensures j - i + Remaining(states[j].timer) <= Remaining(states[i].timer)
    ensures j - i <= 3
    decreases j - i
  {
    hide Next, Inv;
    NoLostWakeup(states, i);
    if i < j {
      JoinIsBounded(states, i, j - 1);
      InvHolds(states, j - 1);
      JoiningStep(states[j-1], states[j]);
    }
  }

  lemma JoiningStep(s: State, s': State)
    requires Inv(s) && Next(s, s') && s.main.Joining? && s'.main.Joining?
    ensures Remaining(s'.timer) < Remaining(s.timer)
  {}

  /** Steps the timer thread takes before it gives the mutex back. */
  function Holding(t: Timer): nat {
    match t
    case Awake => 4
    case Firing => 3
    case Fired => 2
    case Leaving => 1
    case _ => 0
  }

  /** So the main thread waits for the mutex only for a bounded number of timer steps. */
  lemma {:induction false} MutexIsReleased(states: seq<State>, i: nat, j: nat)
    requires Behaviour(states) && i <= j < |states|
    requires forall k :: i <= k <= j ==> states[k].owner == TimerThread && states[k].main == states[i].main
    ensures j - i + Holding(states[j].timer) <= Holding(states[i].timer)
    ensures j - i <= 3
    decreases j - i
  {
    hide Next, Inv;
    InvHolds(states, j);
    HeldByTimer(states[j]);
    if i < j {
      MutexIsReleased(states, i, j - 1);
      InvHolds(states, j - 1);
      HoldingStep(states[j-1], states[j]);
    }
  }

  lemma HeldByTimer(s: State)
    requires Inv(s) && s.owner == TimerThread
    ensures Holding(s.timer) >= 1
  {}

  lemma HoldingStep(s: State, s': State)
    requires Inv(s) && Next(s, s') && s.owner == TimerThread && s'.owner == TimerThread && s'.main == s.main
    ensures Holding(s'.timer) < Holding(s.timer)
  {}
}
