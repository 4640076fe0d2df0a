/**
  muduo/net/EventLoop.cc as a protocol: one loop thread and any number of other
  threads, taking turns at the granularity of one lock section or one system
  call.  The eventfd is a counter, poll() returns what the environment chooses.
*/
module EventLoop {

  type Functor = nat
  type Thread = nat

  /** A channel that poll() reports: the eventfd's own, or any other. */
  datatype Event = Wakeup | Other

  /** Where the loop thread is in loop(). */
  datatype Pc =
    | Check                          // at while (!quit_)
    | Poll                           // in poller_->poll
    | Handle(todo: seq<Event>)       // in the loop over activeChannels_
    | Swap                           // in doPendingFunctors, before the swap
    | Run(batch: seq<Functor>)       // in doPendingFunctors, after the swap
    | Stopped                        // loop() has returned

  datatype State = State(
    pending: seq<Functor>,           // pendingFunctors_
    calling: bool,                   // callingPendingFunctors_
    counter: nat,                    // the eventfd
    quit: bool,                      // quit_
    pc: Pc,
    selfQueued: bool,                // the loop thread is in queueInLoop, past the push
    queued: set<Thread>,             // other threads in queueInLoop, past the push
    quitting: set<Thread>,           // other threads in quit(), past the assignment
    pushed: seq<Functor>,            // history: every functor ever pushed
    ran: seq<Functor>)               // history: every functor ever run from the queue

  datatype Action =
    | CheckQuit
    | PollReturns(active: seq<Event>)
    | HandleEvent
    | BeginDrain
    | TakeBatch
    | RunFunctor
    | EndDrain
    | SelfPush(f: Functor)
    | SelfDecide
    | SelfQuit
    | Push(t: Thread, f: Functor)
    | Wake(t: Thread)
    | Quit(t: Thread)
    | QuitWake(t: Thread)

  /** The largest value an eventfd holds; a further write fails and changes nothing. */
  const EVENTFD_MAX: nat := 0xffff_ffff_ffff_fffe

  /** EventLoop.cc:234-242. */
  function WakeupWrite(counter: nat): nat {
    if counter < EVENTFD_MAX then counter + 1 else counter
  }

  /** The loop thread is running user code: a channel's handler or a functor. */
  predicate InUserCode(s: State) {
    (s.pc.Handle? || s.pc.Run?) && !s.selfQueued
  }

  predicate Enabled(s: State, a: Action) {
    match a
    case CheckQuit => s.pc.Check?
    case PollReturns(active) => s.pc.Poll? && (Wakeup in active ==> s.counter > 0)
    case HandleEvent => s.pc.Handle? && s.pc.todo != [] && !s.selfQueued
    case BeginDrain => s.pc.Handle? && s.pc.todo == [] && !s.selfQueued
    case TakeBatch => s.pc.Swap?
    case RunFunctor => s.pc.Run? && s.pc.batch != [] && !s.selfQueued
    case EndDrain => s.pc.Run? && s.pc.batch == [] && !s.selfQueued
    case SelfPush(_) => InUserCode(s)
    case SelfDecide => s.selfQueued
    case SelfQuit => InUserCode(s)
    case Push(t, _) => t !in s.queued
    case Wake(t) => t in s.queued
    case Quit(t) => t !in s.quitting
    case QuitWake(t) => t in s.quitting
  }

  function Next(s: State, a: Action): State
    requires Enabled(s, a)
  {
    match a
    case CheckQuit => s.(pc := if s.quit then Stopped else Poll)
    case PollReturns(active) => s.(pc := Handle(active))
    case HandleEvent =>
      s.(pc := Handle(s.pc.todo[1..]), counter := if s.pc.todo[0] == Wakeup then 0 else s.counter)
    case BeginDrain => s.(pc := Swap, calling := true)
    case TakeBatch => s.(pc := Run(s.pending), pending := [])
    case RunFunctor => s.(pc := Run(s.pc.batch[1..]), ran := s.ran + [s.pc.batch[0]])
    case EndDrain => s.(pc := Check, calling := false)
    case SelfPush(f) => s.(pending := s.pending + [f], pushed := s.pushed + [f], selfQueued := true)
    case SelfDecide => s.(selfQueued := false, counter := if s.calling then WakeupWrite(s.counter) else s.counter)
    case SelfQuit => s.(quit := true)
    case Push(t, f) => s.(pending := s.pending + [f], pushed := s.pushed + [f], queued := s.queued + {t})
    case Wake(t) => s.(queued := s.queued - {t}, counter := WakeupWrite(s.counter))
    case Quit(t) => s.(quit := true, quitting := s.quitting + {t})
    case QuitWake(t) => s.(quitting := s.quitting - {t}, counter := WakeupWrite(s.counter))
  }

  /** A sequence of steps that can be taken one after another. */
  predicate Possible(s: State, run: seq<Action>)
    decreases |run|
  {
    run == [] || (Enabled(s, run[0]) && Possible(Next(s, run[0]), run[1..]))
  }

  function Exec(s: State, run: seq<Action>): State
    requires Possible(s, run)
    decreases |run|
  {
    if run == [] then s else Exec(Next(s, run[0]), run[1..])
  }

  /** One more step at the end of a run. */
  lemma {:induction false} LastStep(s: State, run: seq<Action>, a: Action)
    requires Possible(s, run) && Enabled(Exec(s, run), a)
    ensures Possible(s, run + [a]) && Exec(s, run + [a]) == Next(Exec(s, run), a)
    decreases |run|
  {
    if run == [] {
      assert run + [a] == [a] && [a][1..] == [];
      assert Possible(Next(s, a), []) && Exec(Next(s, a), []) == Next(s, a);
    } else {
      LastStep(Next(s, run[0]), run[1..], a);
      assert (run + [a])[1..] == run[1..] + [a];
    }
  }

  // ---------------------------------------------------------------- the invariant

  function Batch(pc: Pc): seq<Functor> {
    if pc.Run? then pc.batch else []
  }

  /** Someone will make poll() return: the eventfd is readable or a wakeup is on its way. */
  predicate Awake(s: State) {
    s.pending == [] || s.counter > 0 || s.queued != {} || s.selfQueued
  }

  predicate QuitAwake(s: State) {
    s.quit ==> s.counter > 0 || s.quitting != {}
  }

  predicate Inv(s: State) {
    && Ordered(s)
    && (s.calling <==> s.pc.Swap? || s.pc.Run?)
    && (s.selfQueued ==> s.pc.Handle? || s.pc.Run?)
    && (s.pc.Run? || s.pc.Check? || s.pc.Poll? ==> Awake(s))
    && (s.pc.Poll? ==> QuitAwake(s))
  }

  /** What was pushed is what has run, what is about to run, and what waits, in that order. */
  predicate Ordered(s: State) {
    s.pushed == s.ran + Batch(s.pc) + s.pending
  }

  lemma {:induction false} RunOrder(s: State, run: seq<Action>)
    requires Ordered(s) && Possible(s, run)
    ensures Ordered(Exec(s, run))
    decreases |run|
  {
    if run != [] {
      StepOrder(s, run[0]);
      RunOrder(Next(s, run[0]), run[1..]);
    }
  }

  lemma Assoc(a: seq<Functor>, b: seq<Functor>, c: seq<Functor>)
    ensures a + b + c == a + (b + c)
  {
  }

  lemma StepOrder(s: State, a: Action)
    requires Ordered(s) && Enabled(s, a)
    ensures Ordered(Next(s, a))
  {
    var n := Next(s, a);
    match a
    case RunFunctor =>
      var b := s.pc.batch;
      assert b == [b[0]] + b[1..];
      Assoc(s.ran, [b[0]], b[1..]);
    case TakeBatch =>
      assert s.ran + [] + s.pending == s.ran + s.pending + [];
    case SelfPush(f) => Assoc(s.ran + Batch(s.pc), s.pending, [f]);
    case Push(t, f) => Assoc(s.ran + Batch(s.pc), s.pending, [f]);
    case _ =>
  }

  lemma StepInv(s: State, a: Action)
    requires Inv(s) && Enabled(s, a)
    ensures Inv(Next(s, a))
  {
    StepOrder(s, a);
  }

  lemma {:induction false} RunInv(s: State, run: seq<Action>)
    requires Inv(s) && Possible(s, run)
    ensures Inv(Exec(s, run))
    decreases |run|
  {
    if run != [] {
      StepInv(s, run[0]);
      RunInv(Next(s, run[0]), run[1..]);
    }
  }

  // ---------------------------------------------------------------- what it promises

  /** The loop at entry to loop(), quit_ just cleared, nothing run yet. */
  predicate AtEntry(s: State) {
    && s.pc.Check? && !s.quit && !s.calling && !s.selfQueued
    && s.ran == [] && s.pushed == s.pending
  }

  /** The loop may block in poll() although functors are waiting and nobody is about to wake it. */
  predicate LostWakeup(s: State) {
    s.pc.Poll? && s.counter == 0 && s.pending != [] && s.queued == {}
  }

  /**
    However the threads interleave, the functors run so far are the first ones
    pushed: in push order, and none twice.
  */
  lemma RunsInPushOrder(s: State, run: seq<Action>)
    requires AtEntry(s) && Possible(s, run)
    ensures Exec(s, run).ran <= Exec(s, run).pushed
  {
    RunOrder(s, run);
  }

  /**
    No wakeup is ever lost, over all interleavings, exactly when loop() is entered
    without work that the loop thread queued for itself beforehand.
  */
  lemma NoLostWakeup(s: State)
    requires AtEntry(s)
    ensures Awake(s) <==> forall run | Possible(s, run) :: !LostWakeup(Exec(s, run))
  {
    if Awake(s) {
      forall run | Possible(s, run) ensures !LostWakeup(Exec(s, run)) {
        RunInv(s, run);
      }
    } else {
      var run := [CheckQuit];
      assert Possible(Next(s, CheckQuit), run[1..]);
      assert Possible(s, run);
      assert Exec(s, run) == Exec(Next(s, run[0]), run[1..]) == s.(pc := Poll);
      assert LostWakeup(Exec(s, run));
    }
  }

  /** A quit() from another thread is noticed too: poll() cannot block once it has woken the loop. */
  lemma QuitIsNoticed(s: State, run: seq<Action>)
    requires AtEntry(s) && Awake(s) && Possible(s, run)
    ensures var e := Exec(s, run); e.pc.Poll? && e.quit && e.quitting == {} ==> e.counter > 0
  {
    RunInv(s, run);
  }

  lemma FirstStep(s: State, a: Action, rest: seq<Action>)
    requires Enabled(s, a) && Possible(Next(s, a), rest)
    ensures Possible(s, [a] + rest) && Exec(s, [a] + rest) == Exec(Next(s, a), rest)
  {
    assert ([a] + rest)[1..] == rest;
  }

  /** The loop thread's own steps from the end of the handlers to the end of the batch. */
  function DrainSteps(n: nat): seq<Action> {
    [BeginDrain, TakeBatch] + seq(n, _ => RunFunctor) + [EndDrain]
  }

  lemma {:induction false} RunBatch(s: State, n: nat)
    requires s.pc.Run? && !s.selfQueued && |s.pc.batch| == n
    ensures Possible(s, seq(n, _ => RunFunctor) + [EndDrain])
    ensures Exec(s, seq(n, _ => RunFunctor) + [EndDrain]) ==
      s.(pc := Check, calling := false, ran := s.ran + s.pc.batch)
    decreases n
  {
    var run := seq(n, _ => RunFunctor) + [EndDrain];
    if n == 0 {
      assert run == [EndDrain] && run[1..] == [];
      assert s.ran + s.pc.batch == s.ran;
      assert Possible(Next(s, run[0]), run[1..]);
    } else {
      var s1 := Next(s, RunFunctor);
      RunBatch(s1, n - 1);
      assert run[0] == RunFunctor;
      assert run[1..] == seq(n - 1, _ => RunFunctor) + [EndDrain];
      assert s.ran + s.pc.batch == s1.ran + s1.pc.batch;
    }
  }

  /** One drain, left alone, runs everything pushed before it began. */
  lemma DrainRunsAll(s: State)
    requires Ordered(s) && s.pc == Handle([]) && !s.selfQueued
    ensures Possible(s, DrainSteps(|s.pending|))
    ensures var e := Exec(s, DrainSteps(|s.pending|)); e.ran == s.pushed && e.pending == [] && e.pc.Check?
  {
    hide Exec, Possible;
    var n := |s.pending|;
    var s1 := Next(s, BeginDrain);
    var s2 := Next(s1, TakeBatch);
    RunBatch(s2, n);
    var run := DrainSteps(n);
    var tail := seq(n, _ => RunFunctor) + [EndDrain];
    assert run == [BeginDrain] + ([TakeBatch] + tail);
    FirstStep(s1, TakeBatch, tail);
    FirstStep(s, BeginDrain, [TakeBatch] + tail);
    assert s.ran + s.pending == s.pushed;
  }

  /** The steps that wake the loop: none if the eventfd is readable, else the wakeup of a thread that has pushed. */
  predicate IsWake(run: seq<Action>) {
    run == [] || (|run| == 1 && run[0].Wake?)
  }

  /**
    Whenever the loop is in poll() with functors waiting, the wakeup on its way, if
    one is needed, and the loop's own steps run everything that was pushed.
  */
  lemma WaitingWillRun(s: State, run: seq<Action>) returns (wake: seq<Action>)
    requires AtEntry(s) && Awake(s) && Possible(s, run)
    requires Exec(s, run).pc.Poll? && Exec(s, run).pending != []
    ensures var p := Exec(s, run);
      var more := wake + ([PollReturns([Wakeup]), HandleEvent] + DrainSteps(|p.pending|));
      && IsWake(wake) && Possible(p, more)
      && Exec(p, more).ran == p.pushed && Exec(p, more).pending == [] && Exec(p, more).pc.Check?
  {
    RunInv(s, run);
    var p := Exec(s, run);
    hide Exec, Possible, DrainSteps;
    if p.counter > 0 {
      wake := [];
      WokenRuns(p);
      assert wake + ([PollReturns([Wakeup]), HandleEvent] + DrainSteps(|p.pending|))
        == [PollReturns([Wakeup]), HandleEvent] + DrainSteps(|p.pending|);
    } else {
      var t :| t in p.queued;
      wake := [Wake(t)];
      var q := Next(p, Wake(t));
      WokenRuns(q);
      FirstStep(p, Wake(t), [PollReturns([Wakeup]), HandleEvent] + DrainSteps(|p.pending|));
    }
  }

  lemma WokenRuns(p: State)
    requires Inv(p) && p.pc.Poll? && p.counter > 0
    ensures var more := [PollReturns([Wakeup]), HandleEvent] + DrainSteps(|p.pending|);
      && Possible(p, more)
      && Exec(p, more).ran == p.pushed && Exec(p, more).pending == [] && Exec(p, more).pc.Check?
  {
    hide Exec, Possible, DrainSteps;
    var p1 := Next(p, PollReturns([Wakeup]));
    var p2 := Next(p1, HandleEvent);
    var rest := DrainSteps(|p.pending|);
    DrainRunsAll(p2);
    FirstStep(p1, HandleEvent, rest);
    FirstStep(p, PollReturns([Wakeup]), [HandleEvent] + rest);
    assert [PollReturns([Wakeup])] + ([HandleEvent] + rest) == [PollReturns([Wakeup]), HandleEvent] + rest;
  }
}
