/**
  The life of one timer of muduo/net/TimerQueue.cc, told from what was asked for
  alone: the arguments of addTimer() and the calls and clock readings that follow.
  In every run the queue agrees with it.
*/
module TimerLife {
  import opened Timers

  /** What addTimer() was called with, and the id it gave. */
  datatype Plan = Plan(id: Id, when: int, interval: nat, repeat: bool)

  datatype Life =
    | Waiting                              // addTimerInLoop still to come
    | Listed(when: int)                    // to fire at the first reading at or after when
    | Firing(now: int, cancelled: bool)    // in the batch of the reading now
    | Deleted

  function NextLife(p: Plan, l: Life, act: Action): Life {
    match act
    case Add(a, _) => if l.Waiting? && a == p.id.addr then Listed(p.when) else l
    case Begin(now) => if l.Listed? && l.when <= now then Firing(now, false) else l
    case CancelTimer(id) =>
      if id != p.id then l
      else if l.Listed? then Deleted
      else if l.Firing? then Firing(l.now, true)
      else l
    case End(_) =>
      if !l.Firing? then l
      else if p.repeat && !l.cancelled then Listed(l.now + p.interval)
      else Deleted
    case _ => l
  }

  /** Whether the step takes the timer into a batch. */
  predicate Fires(l: Life, act: Action) {
    act.Begin? && l.Listed? && l.when <= act.now
  }

  function LifeAfter(p: Plan, l: Life, run: seq<Action>): Life
    decreases |run|
  {
    if run == [] then l else LifeAfter(p, NextLife(p, l, run[0]), run[1..])
  }

  function FiresIn(p: Plan, l: Life, run: seq<Action>): nat
    decreases |run|
  {
    if run == [] then 0 else Bit(Fires(l, run[0])) + FiresIn(p, NextLife(p, l, run[0]), run[1..])
  }

  /** The timer object is there, as planned but for its expiration. */
  predicate Exists(q: Queue, p: Plan, when: int) {
    p.id.addr in q.heap && q.heap[p.id.addr] == Timer(when, p.interval, p.repeat, p.id.seqno)
  }

  /** The queue has the timer where its life says. */
  ghost predicate IsAt(q: Queue, p: Plan, l: Life) {
    match l
    case Waiting => Exists(q, p, p.when) && p.id.addr in q.waiting
    case Listed(when) => Exists(q, p, when) && p.id in q.active && Entry(when, p.id.addr) in q.timers
    case Firing(now, cancelled) =>
      && p.id.addr in q.heap && Exists(q, p, q.heap[p.id.addr].expiration)
      && q.calling && q.batchNow == now && InBatch(q, p.id.addr) && (p.id in q.canceling <==> cancelled)
    case Deleted => Dead(q, p.id)
  }

  // ---------------------------------------------------------------- one step

  lemma InBatchFacts(q: Queue, a: Addr)
    requires Consistent(q) && InBatch(q, a)
    ensures a in q.heap && IdOf(q, a) !in q.active && a !in q.waiting && q.heap[a].expiration <= q.batchNow
  {
    var i :| 0 <= i < |q.batch| && q.batch[i].addr == a;
    assert BatchOk(q, q.batch[i]);
  }

  /** A step that leaves this timer's object and its place alone. */
  lemma Untouched(q: Queue, r: Queue, p: Plan, l: Life)
    requires IsAt(q, p, l) && !l.Deleted? && Consistent(r)
    requires p.id.addr in q.heap && p.id.addr in r.heap && r.heap[p.id.addr] == q.heap[p.id.addr]
    requires l.Waiting? ==> p.id.addr in r.waiting
    requires l.Listed? ==> p.id in r.active
    requires l.Firing? ==>
      r.calling && r.batchNow == q.batchNow && r.batch == q.batch && (p.id in r.canceling <==> p.id in q.canceling)
    ensures IsAt(r, p, l)
  {
    hide Sorted, EntryOk, BatchOk, Accounted, Numbered;
    if l.Listed? {
      assert ActiveOk(r, p.id);
    }
    if l.Firing? {
      var i :| 0 <= i < |q.batch| && q.batch[i].addr == p.id.addr;
      assert r.batch[i].addr == p.id.addr;
    }
  }

  lemma CancelAt(q: Queue, p: Plan, l: Life, id: Id)
    requires Inv(q) && LoopFree(q) && IsAt(q, p, l) && !l.Deleted?
    ensures IsAt(Cancel(q, id), p, NextLife(p, l, CancelTimer(id)))
  {
    hide Indexes, Accounted, Numbered, AlarmOk, Without, InBatch;
    StepInv(q, CancelTimer(id));
    if l.Firing? {
      CancelFiring(q, p, l, id);
    } else if id == p.id && l.Listed? {
      CancelListed(q, id);
    } else {
      if l.Waiting? {
        WaitingNotListed(q, p.id);
      }
      CancelElsewhere(q, p.id, id);
      Untouched(q, Cancel(q, id), p, l);
    }
  }

  lemma CancelListed(q: Queue, id: Id)
    requires Inv(q) && id in q.active && Names(q, id)
    ensures Dead(Cancel(q, id), id)
  {
  }

  /** Cancelling another id, or one that is not listed, leaves a timer's object and listing alone. */
  lemma CancelElsewhere(q: Queue, id: Id, other: Id)
    requires Consistent(q) && Names(q, id) && (other != id || id !in q.active)
    ensures var r := Cancel(q, other);
      && id.addr in r.heap && r.heap[id.addr] == q.heap[id.addr] && r.waiting == q.waiting
      && (id in q.active ==> id in r.active) && r.batch == q.batch && r.calling == q.calling
  {
    hide Sorted, Without, EntryOk, BatchOk;
    assert other in q.active ==> ActiveOk(q, other);
  }

  lemma CancelFiring(q: Queue, p: Plan, l: Life, id: Id)
    requires Inv(q) && IsAt(q, p, l) && l.Firing?
    ensures IsAt(Cancel(q, id), p, NextLife(p, l, CancelTimer(id)))
  {
    hide Indexes, Accounted, Numbered, AlarmOk, Without;
    var r := Cancel(q, id);
    InBatchFacts(q, p.id.addr);
    assert IdOf(q, p.id.addr) == p.id;
    CancelElsewhere(q, p.id, id);
    var i :| 0 <= i < |q.batch| && q.batch[i].addr == p.id.addr;
    assert r.batch[i].addr == p.id.addr;
  }

  lemma BeginFrame(q: Queue, now: int)
    requires Enabled(q, Begin(now))
    ensures var r := Step(q, Begin(now));
      && r.heap == q.heap && r.waiting == q.waiting && r.calling && r.batchNow == now && r.canceling == {}
      && r.started == 0
  {
  }

  lemma BeginAt(q: Queue, p: Plan, l: Life, now: int)
    requires Inv(q) && Enabled(q, Begin(now)) && IsAt(q, p, l) && !l.Deleted?
    ensures IsAt(Step(q, Begin(now)), p, NextLife(p, l, Begin(now)))
  {
    hide Step, Enabled, Indexes, Accounted, Numbered, AlarmOk, Sorted;
    var r, a := Step(q, Begin(now)), p.id.addr;
    StepInv(q, Begin(now));
    BeginFrame(q, now);
    NotFiringEither(q, p, l, now);
    if l.Listed? {
      var e := Entry(l.when, a);
      ExpiredExactly(q, now, e);
      ListedNotWaiting(q, p.id);
      if l.when <= now {
        var i :| 0 <= i < |r.batch| && r.batch[i] == e;
        assert r.batch[i].addr == a;
      } else {
        NotInBatch(q, r, now, a);
        MustBeListed(r, a);
        assert IdOf(r, a) == p.id;
      }
    }
  }

  lemma MustBeListed(q: Queue, a: Addr)
    requires Consistent(q) && a in q.heap && a !in q.waiting && !InBatch(q, a)
    ensures IdOf(q, a) in q.active && Entry(q.heap[a].expiration, a) in q.timers
  {
    hide Sorted, EntryOk, BatchOk, Numbered;
    assert ActiveOk(q, IdOf(q, a));
  }

  lemma WaitingNotListed(q: Queue, id: Id)
    requires Consistent(q) && Names(q, id) && id.addr in q.waiting
    ensures id !in q.active
  {
    assert IdOf(q, id.addr) == id;
  }

  lemma ListedNotWaiting(q: Queue, id: Id)
    requires Consistent(q) && Names(q, id) && id in q.active
    ensures id.addr !in q.waiting
  {
  }

  /** A listed timer that is not due is not in the batch. */
  lemma NotInBatch(q: Queue, r: Queue, now: int, a: Addr)
    requires Inv(q) && Enabled(q, Begin(now)) && r == Step(q, Begin(now)) && a in q.heap && q.heap[a].expiration > now
    ensures !InBatch(r, a)
  {
    StepInv(q, Begin(now));
    hide Step, Enabled;
    if InBatch(r, a) {
      InBatchFacts(r, a);
    }
  }

  lemma EndFrame(q: Queue, now: int)
    requires Enabled(q, End(now))
    ensures Step(q, End(now)) == FireEnd(q, now)
    ensures !FireEnd(q, now).calling && FireEnd(q, now).waiting == q.waiting
  {
    hide ResetAll;
    ResetAllFrame(Quiet(q));
  }

  /** The end of a batch leaves every timer outside it as it was. */
  lemma EndKeeps(q: Queue, id: Id, now: int)
    requires Inv(q) && Names(q, id) && !InBatch(q, id.addr)
    ensures var r := FireEnd(q, now);
      id.addr in r.heap && r.heap[id.addr] == q.heap[id.addr] && (id in q.active ==> id in r.active)
  {
    hide Indexes, Accounted, Numbered, AlarmOk, ResetAll;
    var q1 := Quiet(q);
    SameButArming(q, q1);
    assert !InBatch(q1, id.addr);
    ResetAllKeeps(q1, id.addr);
    assert IdOf(q1, id.addr) == id;
  }

  lemma EndAt(q: Queue, p: Plan, l: Life, now: int)
    requires Inv(q) && Enabled(q, End(now)) && IsAt(q, p, l) && !l.Deleted?
    ensures IsAt(Step(q, End(now)), p, NextLife(p, l, End(now)))
  {
    hide Step, FireEnd, Indexes, Accounted, Numbered, AlarmOk, InBatch;
    var a := p.id.addr;
    StepInv(q, End(now));
    EndFrame(q, now);
    if l.Firing? {
      BatchSettles(q, now, a);
      assert IdOf(q, a) == p.id;
      if p.repeat && !l.cancelled {
        ListedUnder(FireEnd(q, now), p.id);
      } else {
        DeletedDead(q, p.id, now);
      }
    } else {
      NotFiring(q, p, l);
      EndKeeps(q, p.id, now);
      Untouched(q, FireEnd(q, now), p, l);
    }
  }

  lemma ListedUnder(q: Queue, id: Id)
    requires Consistent(q) && id in q.active
    ensures Names(q, id) && Entry(q.heap[id.addr].expiration, id.addr) in q.timers
  {
    assert ActiveOk(q, id);
  }

  lemma NotFiring(q: Queue, p: Plan, l: Life)
    requires Inv(q) && IsAt(q, p, l) && (l.Waiting? || l.Listed?)
    ensures !InBatch(q, p.id.addr)
  {
    if InBatch(q, p.id.addr) {
      InBatchFacts(q, p.id.addr);
    }
  }

  lemma DeletedDead(q: Queue, id: Id, now: int)
    requires Inv(q) && q.calling && Names(q, id) && id.addr !in FireEnd(q, now).heap
    ensures Dead(FireEnd(q, now), id)
  {
    var q1 := Quiet(q);
    var r := ResetAll(q1);
    ResetAllFrame(q1);
    forall b | b in r.heap ensures r.heap[b].sequence != id.seqno {
      ResetAllNumbers(q1, b);
    }
  }

  lemma OtherAt(q: Queue, p: Plan, l: Life, act: Action)
    requires Inv(q) && Enabled(q, act) && IsAt(q, p, l) && !l.Deleted?
    requires act.NewTimer? || act.Add? || act.Callback? || act.KernelFires?
    ensures IsAt(Step(q, act), p, NextLife(p, l, act))
  {
    hide Sorted, Inserted, EntryOk, BatchOk, ActiveOk, InBatch, Alarmed, Numbered, Accounted, Indexes;
    var r := Step(q, act);
    StepInv(q, act);
    if act.Add? && act.a == p.id.addr {
      AddedIsWaiting(q, p, l);
      AddedListed(q, p, act.now);
    } else {
      Untouched(q, r, p, l);
    }
  }

  lemma AddedListed(q: Queue, p: Plan, now: int)
    requires Inv(q) && Enabled(q, Add(p.id.addr, now)) && IsAt(q, p, Waiting)
    ensures IsAt(AddInLoop(q, p.id.addr, now), p, Listed(p.when))
  {
    var a, r := p.id.addr, AddInLoop(q, p.id.addr, now);
    assert IdOf(q, a) == p.id;
    InsertedMember(q.timers, Entry(p.when, a), Entry(p.when, a));
  }

  lemma AddedIsWaiting(q: Queue, p: Plan, l: Life)
    requires Inv(q) && IsAt(q, p, l) && !l.Deleted? && p.id.addr in q.waiting
    ensures l.Waiting?
  {
    if l.Firing? {
      InBatchFacts(q, p.id.addr);
    }
  }

  lemma LifeStep(q: Queue, p: Plan, l: Life, act: Action)
    requires Inv(q) && Enabled(q, act) && IsAt(q, p, l)
    ensures IsAt(Step(q, act), p, NextLife(p, l, act))
  {
    hide Inv, IsAt;
    if l.Deleted? {
      DeletedStays(q, p, act);
    } else {
      match act
      case CancelTimer(id) => CancelAt(q, p, l, id);
      case Begin(now) => BeginAt(q, p, l, now);
      case End(now) => EndAt(q, p, l, now);
      case _ => OtherAt(q, p, l, act);
    }
  }

  lemma DeletedStays(q: Queue, p: Plan, act: Action)
    requires Inv(q) && Enabled(q, act) && IsAt(q, p, Deleted)
    ensures IsAt(Step(q, act), p, NextLife(p, Deleted, act))
  {
    DeadStep(q, act, p.id);
  }

  /** A step calls the timer, or leaves the call still to come, just when the call was due or the step fires it. */
  lemma CallStep(q: Queue, p: Plan, l: Life, act: Action)
    requires Inv(q) && Enabled(q, act) && IsAt(q, p, l)
    ensures multiset(CalledIn(q, act))[p.id] + Bit(StillDue(Step(q, act), p.id))
      == Bit(StillDue(q, p.id)) + Bit(Fires(l, act))
  {
    var r := Step(q, act);
    match act
    case Callback => CallbackCount(q, p.id);
    case Begin(now) =>
      LifeStep(q, p, l, act);
      BeginDue(q, r, p, l, now);
    case End(now) => ResetAllFrame(Quiet(q));
    case _ => SameDue(q, act, p.id);
  }

  lemma BeginDue(q: Queue, r: Queue, p: Plan, l: Life, now: int)
    requires Inv(q) && Enabled(q, Begin(now)) && r == Step(q, Begin(now)) && IsAt(q, p, l)
    requires IsAt(r, p, NextLife(p, l, Begin(now)))
    ensures StillDue(r, p.id) <==> Fires(l, Begin(now))
  {
    hide Inv, Step, Enabled;
    StepInv(q, Begin(now));
    BeginFrame(q, now);
    if Fires(l, Begin(now)) {
      var i :| 0 <= i < |r.batch| && r.batch[i].addr == p.id.addr;
      assert r.started <= i;
    } else if l.Waiting? || l.Listed? {
      NotFiring(r, p, l);
    } else {
      NotFiringEither(q, p, l, now);
    }
  }

  lemma NotFiringEither(q: Queue, p: Plan, l: Life, now: int)
    requires Inv(q) && Enabled(q, Begin(now)) && IsAt(q, p, l)
    ensures !l.Firing?
  {
  }

  // ---------------------------------------------------------------- every run

  /**
    In every run the timer is where its life says, and it has been called once for
    each reading of the clock that took it, but for the call still due now.
  */
  lemma {:induction false} LifeRun(q: Queue, p: Plan, l: Life, run: seq<Action>)
    requires Inv(q) && Possible(q, run) && IsAt(q, p, l)
    ensures IsAt(Exec(q, run), p, LifeAfter(p, l, run))
    ensures multiset(Called(q, run))[p.id] + Bit(StillDue(Exec(q, run), p.id))
      == Bit(StillDue(q, p.id)) + FiresIn(p, l, run)
    decreases |run|
  {
    hide Inv, IsAt, Step, Enabled, CalledIn, NextLife, StillDue;
    if run != [] {
      StepInv(q, run[0]);
      LifeStep(q, p, l, run[0]);
      CallStep(q, p, l, run[0]);
      LifeRun(Step(q, run[0]), p, NextLife(p, l, run[0]), run[1..]);
    }
  }

  /**
    What addTimer(when, interval) promises, from its own arguments, over every run
    before and after: the timer is listed for `when` once added, fires at the first
    reading at or after its time, is listed again an interval after that reading if
    it repeats, and is deleted otherwise or when cancelled.
  */
  lemma TimerLives(before: seq<Action>, a: Addr, when: int, interval: nat, repeat: bool, after: seq<Action>)
    requires Possible(EMPTY, before) && Enabled(Exec(EMPTY, before), NewTimer(a, when, interval, repeat))
    requires Possible(Step(Exec(EMPTY, before), NewTimer(a, when, interval, repeat)), after)
    ensures var q := Exec(EMPTY, before);
      var q1, p := Step(q, NewTimer(a, when, interval, repeat)), Plan(Id(a, q.created + 1), when, interval, repeat);
      && IsAt(Exec(q1, after), p, LifeAfter(p, Waiting, after))
      && (!Exec(q1, after).calling ==> multiset(Called(q1, after))[p.id] == FiresIn(p, Waiting, after))
  {
    hide Possible, Exec, Called, Inv, Step, Enabled, IsAt;
    EmptyInv();
    RunInv(EMPTY, before);
    var q, act := Exec(EMPTY, before), NewTimer(a, when, interval, repeat);
    var q1, p := Step(q, act), Plan(Id(a, q.created + 1), when, interval, repeat);
    StepInv(q, act);
    NewIsWaiting(q, act);
    NewNotDue(q, act);
    LifeRun(q1, p, Waiting, after);
  }

  lemma EmptyInv()
    ensures Inv(EMPTY)
  {
  }

  lemma NewIsWaiting(q: Queue, act: Action)
    requires Enabled(q, act) && act.NewTimer?
    ensures IsAt(Step(q, act), Plan(Id(act.a, q.created + 1), act.when, act.interval, act.repeat), Waiting)
  {
  }

  lemma NewNotDue(q: Queue, act: Action)
    requires Inv(q) && Enabled(q, act) && act.NewTimer?
    ensures !StillDue(Step(q, act), Id(act.a, q.created + 1))
  {
    SameDue(q, act, Id(act.a, q.created + 1));
  }

  // ---------------------------------------------------------------- when the timerfd is set

  /** The timerfd is set at now for the first timer listed, but no sooner than 100 microseconds off. */
  predicate SetForFirst(q: Queue, now: int) {
    && q.timers != [] && q.armedAt == now && !q.fired
    && q.armed.Some?
    && q.armed.value >= q.timers[0].when && q.armed.value >= now + 100
    && (q.armed.value == q.timers[0].when || q.armed.value == now + 100)
  }

  predicate TimerfdSame(q: Queue, r: Queue) {
    r.armed == q.armed && r.armedAt == q.armedAt && r.fired == q.fired
  }

  /**
    The timerfd is set by exactly two things: a timer added in front of all others,
    and the end of a batch that leaves a timer with a positive time.  Reading it
    clears it, and nothing else touches it.
  */
  lemma SetExactly(q: Queue, act: Action)
    requires Inv(q) && Enabled(q, act)
    ensures var r := Step(q, act);
      match act
      case Add(_, now) =>
        if q.timers == [] || r.timers[0].when < q.timers[0].when then SetForFirst(r, now) else TimerfdSame(q, r)
      case End(now) =>
        if r.timers != [] && r.timers[0].when > 0 then SetForFirst(r, now) else TimerfdSame(q, r)
      case Begin(_) => !r.fired && r.armed == q.armed && r.armedAt == q.armedAt
      case KernelFires => r.fired && r.armed.None? && r.armedAt == q.armedAt
      case _ => TimerfdSame(q, r)
  {
    hide Consistent, Sorted;
    match act
    case Add(a, now) => AddSets(q, a, now);
    case End(now) => ResetAllTimerfd(Quiet(q));
    case _ =>
  }

  lemma AddSets(q: Queue, a: Addr, now: int)
    requires Inv(q) && a in q.waiting && a in q.heap
    ensures var r := AddInLoop(q, a, now);
      && r.timers != []
      && (if q.timers == [] || r.timers[0].when < q.timers[0].when then SetForFirst(r, now) else TimerfdSame(q, r))
  {
    var e := Entry(q.heap[a].expiration, a);
    forall i | 0 <= i < |q.timers| ensures q.timers[i] != e {
      assert EntryOk(q, q.timers[i]);
    }
    InsertedSorted(q.timers, e);
  }

  lemma {:induction false} ResetAllTimerfd(q: Queue)
    ensures TimerfdSame(q, ResetAll(q))
    decreases |q.batch|
  {
    if q.batch != [] && q.batch[0].addr in q.heap {
      ResetAllTimerfd(ResetOne(q));
    }
  }
}
