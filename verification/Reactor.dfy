/**
  The code of muduo/net/EventLoop.cc itself, each call proved to be a run of
  steps of the protocol in EventLoop.  Functors and handlers are user code; what
  matters of them is which functors they queue.  Between any two steps of the
  loop thread the other threads take whatever steps the environment chooses.
*/
module Reactor {
  import opened Protocol = EventLoop

  /** What the other threads do, from one step of the loop thread to the next. */
  type Others = nat -> seq<Action>

  ghost predicate Alone(others: Others) {
    forall k: nat :: others(k) == []
  }

  /** The functors that the loop thread itself has queued, in order. */
  ghost function Own(steps: seq<Action>): seq<Functor> {
    if steps == [] then [] else
      var last := steps[|steps| - 1];
      Own(steps[..|steps| - 1]) + (if last.SelfPush? then [last.f] else [])
  }

  lemma OwnSnoc(steps: seq<Action>, a: Action)
    ensures Own(steps + [a]) == Own(steps) + (if a.SelfPush? then [a.f] else [])
  {
    assert (steps + [a])[..|steps|] == steps;
  }

  class EventLoop {
    var pendingFunctors: seq<Functor>
    var callingPendingFunctors: bool
    var eventfd: nat
    var quit: bool
    /** Other threads inside queueInLoop() and quit(), and how often they have had their turn. */
    var queued: set<Thread>
    var quitting: set<Thread>
    var turns: nat
    ghost var pc: Pc
    ghost var selfQueued: bool
    ghost var pushed: seq<Functor>
    ghost var ran: seq<Functor>
    /** The state in which loop() was entered, and the steps taken since. */
    ghost const start: State
    ghost var steps: seq<Action>

    ghost function Now(): State
      reads this
    {
      State(pendingFunctors, callingPendingFunctors, eventfd, quit, pc, selfQueued, queued, quitting, pushed, ran)
    }

    /** The object is where the protocol is after its steps. */
    ghost predicate Valid()
      reads this
    {
      Possible(start, steps) && Exec(start, steps) == Now() && AtEntry(start)
    }

    /** At entry to loop(): functors queued earlier may be waiting. */
    constructor (waiting: seq<Functor>, counter: nat)
      ensures Valid() && steps == [] && pendingFunctors == waiting && eventfd == counter && pc == Check && !selfQueued
    {
      pendingFunctors, callingPendingFunctors, eventfd, quit := waiting, false, counter, false;
      pc, selfQueued, queued, quitting, pushed, ran := Check, false, {}, {}, waiting, [];
      start := State(waiting, false, counter, false, Check, false, {}, {}, waiting, []);
      turns, steps := 0, [];
    }

    /** The functors have run in the order pushed, none twice; and no wakeup is lost if none was at the start. */
    lemma Promises()
      requires Valid()
      ensures Ordered(Now()) && ran <= pushed
      ensures Awake(start) ==> Inv(Now()) && !LostWakeup(Now())
    {
      RunOrder(start, steps);
      if Awake(start) {
        RunInv(start, steps);
      }
    }

    /** Record one step that the fields have not taken yet. */
    ghost method Take(a: Action)
      requires Valid() && Enabled(Now(), a)
      modifies this`steps
      ensures steps == old(steps) + [a] && Own(steps) == old(Own(steps)) + (if a.SelfPush? then [a.f] else [])
      ensures Possible(start, steps) && Exec(start, steps) == Next(Now(), a)
    {
      LastStep(start, steps, a);
      OwnSnoc(steps, a);
      steps := steps + [a];
    }

    /** EventLoop.cc:234-242. */
    method Wakeup()
      modifies this`eventfd
      ensures eventfd == WakeupWrite(old(eventfd)) && eventfd > 0 && eventfd >= old(eventfd)
    {
      if eventfd < EVENTFD_MAX {
        eventfd := eventfd + 1;
      }
    }

    // -------------------------------------------------------------- other threads

    /** EventLoop.cc:163-165, by another thread. */
    method PushFromOther(f: Functor, t: Thread)
      requires Valid() && t !in queued
      modifies this`steps, this`pendingFunctors, this`pushed, this`queued
      ensures Valid() && steps == old(steps) + [Push(t, f)] && Own(steps) == old(Own(steps))
      ensures pendingFunctors == old(pendingFunctors) + [f] && pushed == old(pushed) + [f]
      ensures queued == old(queued) + {t}
    {
      hide Exec, Possible;
      Take(Push(t, f));
      pendingFunctors := pendingFunctors + [f];
      pushed, queued := pushed + [f], queued + {t};
    }

    /** EventLoop.cc:167-170, by another thread. */
    method WakeFromOther(t: Thread)
      requires Valid() && t in queued
      modifies this`steps, this`eventfd, this`queued
      ensures Valid() && steps == old(steps) + [Wake(t)] && Own(steps) == old(Own(steps)) && eventfd > 0
    {
      hide Exec, Possible;
      Take(Wake(t));
      Wakeup();
      queued := queued - {t};
    }

    /** EventLoop.cc:160-171, called by another thread with nobody in between. */
    method QueueInLoop(f: Functor, t: Thread)
      requires Valid() && t !in queued
      modifies this
      ensures Valid() && steps == old(steps) + [Push(t, f), Wake(t)]
      ensures pendingFunctors == old(pendingFunctors) + [f] && eventfd > 0 && pc == old(pc)
    {
      hide Exec, Possible, AtEntry, Own;
      PushFromOther(f, t);
      WakeFromOther(t);
    }

    /** EventLoop.cc:138, by another thread. */
    method QuitFromOther(t: Thread)
      requires Valid() && t !in quitting
      modifies this`steps, this`quit, this`quitting
      ensures Valid() && steps == old(steps) + [Action.Quit(t)] && Own(steps) == old(Own(steps)) && quit
      ensures quitting == old(quitting) + {t}
    {
      hide Exec, Possible;
      Take(Action.Quit(t));
      quit := true;
      quitting := quitting + {t};
    }

    /** EventLoop.cc:142-145, by another thread. */
    method QuitWakeFromOther(t: Thread)
      requires Valid() && t in quitting
      modifies this`steps, this`eventfd, this`quitting
      ensures Valid() && steps == old(steps) + [QuitWake(t)] && Own(steps) == old(Own(steps)) && eventfd > 0
    {
      hide Exec, Possible;
      Take(QuitWake(t));
      Wakeup();
      quitting := quitting - {t};
    }

    /** EventLoop.cc:136-146, called by another thread with nobody in between. */
    method Quit(t: Thread)
      requires Valid() && t !in quitting
      modifies this
      ensures Valid() && steps == old(steps) + [Action.Quit(t), QuitWake(t)] && quit && eventfd > 0 && pc == old(pc)
    {
      hide Exec, Possible, AtEntry, Own;
      QuitFromOther(t);
      QuitWakeFromOther(t);
    }

    /** The other threads have their turn; a step that its thread cannot take is skipped. */
    method Interleave(others: Others)
      requires Valid()
      modifies this`steps, this`pendingFunctors, this`pushed, this`queued, this`quitting, this`quit, this`eventfd,
        this`turns
      ensures Valid() && Own(steps) == old(Own(steps)) && (old(quit) ==> quit)
      ensures old(pendingFunctors) <= pendingFunctors
      ensures Alone(others) ==> pendingFunctors == old(pendingFunctors) && eventfd == old(eventfd) && quit == old(quit)
    {
      var acts := others(turns);
      for i := 0 to |acts|
        invariant Valid() && Own(steps) == old(Own(steps)) && (old(quit) ==> quit)
        invariant old(pendingFunctors) <= pendingFunctors
        invariant i == 0 ==> pendingFunctors == old(pendingFunctors) && eventfd == old(eventfd) && quit == old(quit)
      {
        OtherStep(acts[i]);
      }
      turns := turns + 1;
    }

    method OtherStep(a: Action)
      requires Valid()
      modifies this`steps, this`pendingFunctors, this`pushed, this`queued, this`quitting, this`quit, this`eventfd
      ensures Valid() && Own(steps) == old(Own(steps)) && (old(quit) ==> quit)
      ensures old(pendingFunctors) <= pendingFunctors
    {
      hide Exec, Possible, AtEntry;
      match a
      case Push(t, f) => if t !in queued { PushFromOther(f, t); }
      case Wake(t) => if t in queued { WakeFromOther(t); }
      case Quit(t) => if t !in quitting { QuitFromOther(t); }
      case QuitWake(t) => if t in quitting { QuitWakeFromOther(t); }
      case _ =>
    }

    // -------------------------------------------------------------- the loop thread

    /** EventLoop.cc:160-171, called by the loop thread from a handler or a functor. */
    method QueueFromLoop(f: Functor, others: Others)
      requires Valid() && InUserCode(Now())
      modifies this
      ensures Valid() && InUserCode(Now()) && pc == old(pc) && ran == old(ran)
      ensures callingPendingFunctors == old(callingPendingFunctors) && (old(quit) ==> quit)
      ensures old(pendingFunctors) + [f] <= pendingFunctors && Own(steps) == old(Own(steps)) + [f]
      ensures callingPendingFunctors ==> eventfd > 0
      ensures Alone(others) ==>
        pendingFunctors == old(pendingFunctors) + [f] && eventfd >= old(eventfd) && quit == old(quit)
    {
      hide Exec, Possible, AtEntry, Own, Alone;
      PushFromLoop(f);
      Interleave(others);
      WakeFromLoop();
    }

    /** EventLoop.cc:163-165, by the loop thread. */
    method PushFromLoop(f: Functor)
      requires Valid() && InUserCode(Now())
      modifies this`steps, this`pendingFunctors, this`pushed, this`selfQueued
      ensures Valid() && selfQueued && Own(steps) == old(Own(steps)) + [f]
      ensures pendingFunctors == old(pendingFunctors) + [f]
    {
      hide Exec, Possible;
      Take(SelfPush(f));
      pendingFunctors := pendingFunctors + [f];
      pushed, selfQueued := pushed + [f], true;
    }

    /** EventLoop.cc:167-170, by the loop thread. */
    method WakeFromLoop()
      requires Valid() && selfQueued
      modifies this`steps, this`eventfd, this`selfQueued
      ensures Valid() && !selfQueued && Own(steps) == old(Own(steps))
      ensures eventfd == if callingPendingFunctors then WakeupWrite(old(eventfd)) else old(eventfd)
      ensures eventfd >= old(eventfd) && (callingPendingFunctors ==> eventfd > 0)
    {
      hide Exec, Possible;
      Take(SelfDecide);
      if callingPendingFunctors {
        Wakeup();
      }
      selfQueued := false;
    }

    /** User code run by the loop thread queues these functors. */
    method QueueAll(fs: seq<Functor>, others: Others)
      requires Valid() && InUserCode(Now())
      modifies this
      ensures Valid() && InUserCode(Now()) && pc == old(pc) && ran == old(ran)
      ensures callingPendingFunctors == old(callingPendingFunctors) && (old(quit) ==> quit)
      ensures old(pendingFunctors) <= pendingFunctors && Own(steps) == old(Own(steps)) + fs
      ensures Alone(others) ==>
        && pendingFunctors == old(pendingFunctors) + fs && quit == old(quit)
        && eventfd >= old(eventfd) && (callingPendingFunctors && fs != [] ==> eventfd > 0)
    {
      hide Exec, Possible, AtEntry, Own;
      for i := 0 to |fs|
        invariant Valid() && InUserCode(Now()) && pc == old(pc) && ran == old(ran)
        invariant callingPendingFunctors == old(callingPendingFunctors) && (old(quit) ==> quit)
        invariant old(pendingFunctors) <= pendingFunctors && Own(steps) == old(Own(steps)) + fs[..i]
        invariant Alone(others) ==>
          && pendingFunctors == old(pendingFunctors) + fs[..i] && quit == old(quit)
          && eventfd >= old(eventfd) && (callingPendingFunctors && i > 0 ==> eventfd > 0)
      {
        QueueFromLoop(fs[i], others);
      }
    }

    /** EventLoop.cc:256-262; others may push until the swap. */
    method SwapFunctors(others: Others) returns (functors: seq<Functor>)
      requires Valid() && pc == Handle([]) && !selfQueued
      modifies this
      ensures Valid() && pc == Run(functors) && !selfQueued && callingPendingFunctors
      ensures old(pendingFunctors) <= functors && pendingFunctors == [] && ran == old(ran)
      ensures Own(steps) == old(Own(steps)) && (old(quit) ==> quit)
      ensures Alone(others) ==> functors == old(pendingFunctors) && quit == old(quit)
    {
      hide Exec, Possible, AtEntry, Own, Alone;
      Take(BeginDrain);
      callingPendingFunctors, pc := true, Swap;
      Interleave(others);
      functors := TakeAll();
    }

    /** EventLoop.cc:259-262. */
    method TakeAll() returns (functors: seq<Functor>)
      requires Valid() && pc == Swap
      modifies this`steps, this`pendingFunctors, this`pc
      ensures Valid() && pc == Run(functors) && functors == old(pendingFunctors) && pendingFunctors == []
      ensures Own(steps) == old(Own(steps))
    {
      hide Exec, Possible;
      Take(TakeBatch);
      functors := pendingFunctors;
      pendingFunctors, pc := [], Run(functors);
    }

    /** One functor of the batch, which queues fs. */
    method RunOne(f: Functor, ghost batch: seq<Functor>, fs: seq<Functor>, others: Others)
      requires Valid() && pc == Run(batch) && batch != [] && batch[0] == f && !selfQueued && callingPendingFunctors
      modifies this
      ensures Valid() && pc == Run(batch[1..]) && !selfQueued && callingPendingFunctors && (old(quit) ==> quit)
      ensures ran == old(ran) + [f] && Own(steps) == old(Own(steps)) + fs
      ensures Alone(others) ==>
        && pendingFunctors == old(pendingFunctors) + fs && quit == old(quit)
        && eventfd >= old(eventfd) && (fs != [] ==> eventfd > 0)
    {
      hide Exec, Possible, AtEntry, Own;
      Take(RunFunctor);
      pc, ran := Run(batch[1..]), ran + [f];
      Interleave(others);
      QueueAll(fs, others);
    }

    /**
      EventLoop.cc:254-269: runs everything queued before the swap, once and in
      order, and queues what the functors queue.  With no other thread about, just
      what they queue is left, with the eventfd readable.
    */
    method DoPendingFunctors(queues: Functor -> seq<Functor>, others: Others)
      requires Valid() && pc == Handle([]) && !selfQueued
      modifies this
      ensures Valid() && pc == Check && !callingPendingFunctors && !selfQueued && (old(quit) ==> quit)
      ensures old(ran) + old(pendingFunctors) <= ran
      ensures Own(steps) == old(Own(steps)) + AllQueued(queues, ran[|old(ran)|..])
      ensures Alone(others) ==>
        && ran == old(ran) + old(pendingFunctors) && quit == old(quit)
        && pendingFunctors == AllQueued(queues, old(pendingFunctors)) && (pendingFunctors != [] ==> eventfd > 0)
    {
      hide Exec, Possible, AtEntry, Own, AllQueued, Alone;
      var functors := SwapFunctors(others);
      NoneQueued(queues, functors);
      RunAll(functors, queues, others);
      Take(EndDrain);
      callingPendingFunctors, pc := false, Check;
      assert ran[|old(ran)|..] == functors;
    }

    /** EventLoop.cc:264-267. */
    method RunAll(functors: seq<Functor>, queues: Functor -> seq<Functor>, others: Others)
      requires Valid() && pc == Run(functors) && !selfQueued && callingPendingFunctors
      modifies this
      ensures Valid() && pc == Run([]) && !selfQueued && callingPendingFunctors && (old(quit) ==> quit)
      ensures ran == old(ran) + functors && Own(steps) == old(Own(steps)) + AllQueued(queues, functors)
      ensures Alone(others) && old(pendingFunctors) == [] ==>
        && pendingFunctors == AllQueued(queues, functors) && quit == old(quit)
        && (pendingFunctors != [] ==> eventfd > 0)
    {
      hide Exec, Possible, AtEntry, Own, AllQueued, Alone;
      NoneQueued(queues, functors);
      for i := 0 to |functors|
        invariant Valid() && pc == Run(functors[i..]) && !selfQueued && callingPendingFunctors && (old(quit) ==> quit)
        invariant ran == old(ran) + functors[..i]
        invariant Own(steps) == old(Own(steps)) + AllQueued(queues, functors[..i])
        invariant Alone(others) && old(pendingFunctors) == [] ==>
          && pendingFunctors == AllQueued(queues, functors[..i]) && quit == old(quit)
          && (pendingFunctors != [] ==> eventfd > 0)
      {
        assert functors[i..][1..] == functors[i + 1..];
        AllQueuedSnoc(queues, functors, i);
        RunOne(functors[i], functors[i..], queues(functors[i]), others);
      }
      assert functors[..|functors|] == functors;
    }

    /** EventLoop.cc:125-126 for one channel; the eventfd's own handler reads it, lines 244-252. */
    method HandleOne(event: Event, ghost todo: seq<Event>, fs: seq<Functor>, others: Others)
      requires Valid() && pc == Handle(todo) && todo != [] && todo[0] == event && !selfQueued
      modifies this
      ensures Valid() && pc == Handle(todo[1..]) && !selfQueued && (old(quit) ==> quit) && ran == old(ran)
      ensures old(pendingFunctors) <= pendingFunctors && Own(steps) == old(Own(steps)) + fs
    {
      hide Exec, Possible, AtEntry, Own, Alone;
      Take(HandleEvent);
      pc := Handle(todo[1..]);
      if event == Event.Wakeup {
        eventfd := 0;
      }
      Interleave(others);
      QueueAll(fs, others);
    }

    /** EventLoop.cc:121-130: the handlers of the active channels; the eventfd's own reads it. */
    method HandleEvents(active: seq<Event>, handlers: seq<seq<Functor>>, others: Others)
      requires Valid() && pc == Handle(active) && !selfQueued && |handlers| == |active|
      modifies this
      ensures Valid() && pc == Handle([]) && !selfQueued && (old(quit) ==> quit) && ran == old(ran)
      ensures old(pendingFunctors) <= pendingFunctors && Own(steps) == old(Own(steps)) + Flat(handlers)
    {
      hide Exec, Possible, AtEntry, Own, Alone, Flat;
      FlatNone(handlers);
      for i := 0 to |active|
        invariant Valid() && pc == Handle(active[i..]) && !selfQueued && (old(quit) ==> quit) && ran == old(ran)
        invariant old(pendingFunctors) <= pendingFunctors && Own(steps) == old(Own(steps)) + Flat(handlers[..i])
      {
        assert active[i..][1..] == active[i + 1..];
        HandleOne(active[i], active[i..], handlers[i], others);
        FlatSnoc(handlers, i);
      }
      assert handlers[..|active|] == handlers;
    }

    method StartPoll()
      requires Valid() && pc == Check && !selfQueued && !quit
      modifies this`steps, this`pc
      ensures Valid() && pc == Poll && Own(steps) == old(Own(steps))
    {
      hide Exec, Possible;
      Take(CheckQuit);
      pc := Poll;
    }

    /** poll reports the eventfd if it is readable, and the channels whose handlers are given. */
    method EndPoll(poll: seq<seq<Functor>>) returns (active: seq<Event>, handlers: seq<seq<Functor>>)
      requires Valid() && pc == Poll
      modifies this`steps, this`pc
      ensures Valid() && pc == Handle(active) && Own(steps) == old(Own(steps))
      ensures |handlers| == |active| == |poll| + (if eventfd > 0 then 1 else 0) && Flat(handlers) == Flat(poll)
      ensures Event.Wakeup in active <==> eventfd > 0
    {
      hide Exec, Possible, Flat;
      active := (if eventfd > 0 then [Event.Wakeup] else []) + seq(|poll|, _ => Other);
      handlers := (if eventfd > 0 then [[]] else []) + poll;
      FlatSkips(poll);
      Take(PollReturns(active));
      pc := Handle(active);
    }

    /** One pass of the loop, EventLoop.cc:111-131: other threads may come before and during poll. */
    method Iterate(poll: seq<seq<Functor>>, queues: Functor -> seq<Functor>, others: Others)
      requires Valid() && pc == Check && !selfQueued && !quit
      modifies this
      ensures Valid() && pc == Check && !selfQueued && old(ran) + old(pendingFunctors) <= ran
      ensures Own(steps) == old(Own(steps)) + Flat(poll) + AllQueued(queues, ran[|old(ran)|..])
    {
      hide Exec, Possible, AtEntry, Own, Alone, AllQueued, Flat;
      StartPoll();
      Interleave(others);
      var active, handlers := EndPoll(poll);
      HandleEvents(active, handlers, others);
      DoPendingFunctors(queues, others);
      Interleave(others);
    }

    /**
      EventLoop.cc:103-134 for as many polls as the environment answers: what each
      reports besides the eventfd is the list of its handlers.
    */
    method Loop(polls: seq<seq<seq<Functor>>>, queues: Functor -> seq<Functor>, others: Others)
      returns (ghost batches: seq<seq<Functor>>)
      requires Valid() && pc == Check && !selfQueued
      modifies this
      ensures Valid() && !selfQueued && (pc == Check || pc == Stopped) && (pc == Stopped ==> quit)
      ensures ran <= pushed && (Awake(start) ==> Inv(Now()))
      ensures |batches| <= |polls| && (pc == Check ==> |batches| == |polls|) && ran == old(ran) + Flat(batches)
      ensures Own(steps) == old(Own(steps)) + OwnIn(polls[..|batches|], queues, batches)
      ensures batches != [] ==> old(pendingFunctors) <= batches[0]
    {
      hide Exec, Possible, AtEntry, Own, Alone, Flat, OwnIn, AllQueued;
      var i := 0;
      batches := [];
      NoPasses(polls, queues);
      while !quit && i < |polls|
        invariant Valid() && pc == Check && !selfQueued && 0 <= i == |batches| <= |polls|
        invariant ran == old(ran) + Flat(batches)
        invariant Own(steps) == old(Own(steps)) + OwnIn(polls[..i], queues, batches)
        invariant if i == 0 then pendingFunctors == old(pendingFunctors) else old(pendingFunctors) <= batches[0]
      {
        ghost var before, own := ran, Own(steps);
        Iterate(polls[i], queues, others);
        ghost var batch := ran[|before|..];
        OnePass(polls, queues, batches, batch);
        assert ran == before + batch;
        batches := batches + [batch];
        i := i + 1;
      }
      if quit {
        Take(CheckQuit);
        pc := Stopped;
      }
      Promises();
    }
  }

  /** What handlers and functors queue in these passes, given what each pass runs. */
  ghost function OwnIn(polls: seq<seq<seq<Functor>>>, queues: Functor -> seq<Functor>, batches: seq<seq<Functor>>)
    : seq<Functor>
    requires |polls| == |batches|
  {
    if polls == [] then [] else
      var k := |polls| - 1;
      OwnIn(polls[..k], queues, batches[..k]) + Flat(polls[k]) + AllQueued(queues, batches[k])
  }

  lemma NoPasses(polls: seq<seq<seq<Functor>>>, queues: Functor -> seq<Functor>)
    ensures OwnIn(polls[..0], queues, []) == [] && Flat([]) == []
  {
  }

  lemma OnePass(polls: seq<seq<seq<Functor>>>, queues: Functor -> seq<Functor>, batches: seq<seq<Functor>>,
                batch: seq<Functor>)
    requires |batches| < |polls|
    ensures var k := |batches|;
      && Flat(batches + [batch]) == Flat(batches) + batch
      && OwnIn(polls[..k + 1], queues, batches + [batch])
           == OwnIn(polls[..k], queues, batches) + Flat(polls[k]) + AllQueued(queues, batch)
  {
    var k, bs := |batches|, batches + [batch];
    assert bs[..k] == batches && polls[..k + 1][..k] == polls[..k];
  }

  /** What the handlers queue, one after another. */
  function Flat(handlers: seq<seq<Functor>>): seq<Functor> {
    if handlers == [] then [] else Flat(handlers[..|handlers| - 1]) + handlers[|handlers| - 1]
  }

  lemma FlatNone(handlers: seq<seq<Functor>>)
    ensures Flat(handlers[..0]) == []
  {
  }

  lemma FlatSnoc(handlers: seq<seq<Functor>>, i: nat)
    requires i < |handlers|
    ensures Flat(handlers[..i + 1]) == Flat(handlers[..i]) + handlers[i]
  {
    assert handlers[..i + 1][..i] == handlers[..i];
  }

  /** The wakeup channel's own handler queues nothing. */
  lemma {:induction false} FlatSkips(handlers: seq<seq<Functor>>)
    ensures Flat([[]] + handlers) == Flat(handlers) && [] + handlers == handlers
  {
    if handlers == [] {
      var one: seq<seq<Functor>> := [[]];
      assert one + handlers == one && one[..0] == [];
    } else {
      var k := |handlers| - 1;
      FlatSkips(handlers[..k]);
      assert ([[]] + handlers)[..k + 1] == [[]] + handlers[..k];
    }
  }

  /** What the functors fs queue when they run one after another. */
  function AllQueued(queues: Functor -> seq<Functor>, fs: seq<Functor>): seq<Functor> {
    if fs == [] then [] else AllQueued(queues, fs[..|fs| - 1]) + queues(fs[|fs| - 1])
  }

  lemma NoneQueued(queues: Functor -> seq<Functor>, fs: seq<Functor>)
    ensures AllQueued(queues, fs[..0]) == []
  {
  }

  lemma AllQueuedSnoc(queues: Functor -> seq<Functor>, fs: seq<Functor>, i: nat)
    requires i < |fs|
    ensures AllQueued(queues, fs[..i + 1]) == AllQueued(queues, fs[..i]) + queues(fs[i])
  {
    assert fs[..i + 1][..i] == fs[..i];
  }
}
