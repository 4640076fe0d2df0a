/**
  The histories and the eventfd of muduo/net/EventLoop.cc, told from the steps
  that the threads take.
*/
module EventLoopLaws {
  import opened EventLoop

  /** The functors that the steps push. */
  function PushesIn(run: seq<Action>): seq<Functor> {
    if run == [] then [] else
      (if run[0].Push? || run[0].SelfPush? then [run[0].f] else []) + PushesIn(run[1..])
  }

  function RunsIn(run: seq<Action>): nat {
    if run == [] then 0 else (if run[0].RunFunctor? then 1 else 0) + RunsIn(run[1..])
  }

  lemma HistoryStep(s: State, a: Action)
    requires Enabled(s, a)
    ensures Next(s, a).pushed == s.pushed + (if a.Push? || a.SelfPush? then [a.f] else [])
    ensures |Next(s, a).ran| == |s.ran| + (if a.RunFunctor? then 1 else 0)
  {
  }

  /**
    Over every interleaving from entry, with every functor pushed by any thread
    in the order of the pushes: as many as there were calls have run, the first
    ones; those of the batch and the waiting ones are the others, in order.
  */
  lemma {:induction false} HistoryIs(s: State, run: seq<Action>)
    requires Possible(s, run)
    ensures Exec(s, run).pushed == s.pushed + PushesIn(run) && |Exec(s, run).ran| == |s.ran| + RunsIn(run)
    decreases |run|
  {
    hide Enabled, Next;
    if run != [] {
      HistoryStep(s, run[0]);
      HistoryIs(Next(s, run[0]), run[1..]);
    }
  }

  /** So every functor is accounted for: nothing that was queued is dropped, nothing runs that was not. */
  lemma NothingDropped(s: State, run: seq<Action>)
    requires AtEntry(s) && Possible(s, run)
    ensures var e, all := Exec(s, run), s.pending + PushesIn(run);
      && RunsIn(run) <= |all| && e.ran == all[..RunsIn(run)] && Batch(e.pc) + e.pending == all[RunsIn(run)..]
  {
    HistoryIs(s, run);
    RunOrder(s, run);
    hide Possible, Exec;
    var e := Exec(s, run);
    assert e.pushed == e.ran + (Batch(e.pc) + e.pending);
  }

  // ---------------------------------------------------------------- the eventfd

  /** The wakeup channel's handler reads the eventfd. */
  predicate Reads(s: State, a: Action) {
    a.HandleEvent? && s.pc.Handle? && s.pc.todo != [] && s.pc.todo[0] == Wakeup
  }

  /** Somebody writes to the eventfd: another thread always, the loop thread while it calls functors. */
  predicate Writes(s: State, a: Action) {
    a.Wake? || a.QuitWake? || (a.SelfDecide? && s.pc.Run?)
  }

  function Capped(n: nat): nat {
    if n < 0xffff_ffff_ffff_fffe then n else 0xffff_ffff_ffff_fffe
  }

  /** A read empties it, a write adds one, and nothing else changes it. */
  lemma CounterStep(s: State, a: Action)
    requires Inv(s) && Enabled(s, a) && s.counter <= 0xffff_ffff_ffff_fffe
    ensures Next(s, a).counter ==
      if Reads(s, a) then 0 else if Writes(s, a) then Capped(s.counter + 1) else s.counter
  {
  }

  /** The writes since the last read. */
  function Unread(s: State, run: seq<Action>, before: nat): nat
    requires Possible(s, run)
    decreases |run|
  {
    if run == [] then before else
      Unread(Next(s, run[0]), run[1..],
        if Reads(s, run[0]) then 0 else if Writes(s, run[0]) then before + 1 else before)
  }

  /** Over every interleaving the eventfd counts the writes since it was last read, up to its limit. */
  lemma {:induction false} CounterIs(s: State, run: seq<Action>, before: nat)
    requires Inv(s) && Possible(s, run) && s.counter == Capped(before)
    ensures Exec(s, run).counter == Capped(Unread(s, run, before))
    decreases |run|
  {
    hide Enabled, Next, Inv, Reads, Writes;
    if run != [] {
      CounterStep(s, run[0]);
      StepInv(s, run[0]);
      CounterIs(Next(s, run[0]), run[1..],
        if Reads(s, run[0]) then 0 else if Writes(s, run[0]) then before + 1 else before);
    }
  }

  // ---------------------------------------------------------------- quitting

  function QuitsIn(run: seq<Action>): bool {
    run != [] && (run[0].Quit? || run[0].SelfQuit? || QuitsIn(run[1..]))
  }

  /** quit_ is set by quit() and by nothing else, and a look at it stops the loop exactly then. */
  lemma {:induction false} QuitIs(s: State, run: seq<Action>)
    requires Possible(s, run)
    ensures Exec(s, run).quit <==> s.quit || QuitsIn(run)
    ensures var e := Exec(s, run); e.pc.Check? ==> (Next(e, CheckQuit).pc.Stopped? <==> s.quit || QuitsIn(run))
    decreases |run|
  {
    if run != [] {
      QuitIs(Next(s, run[0]), run[1..]);
    }
  }
}
