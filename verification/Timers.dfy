/**
  The timer scheduler of muduo/net/TimerQueue.cc as steps on a value: two indexes
  over the same timers, one timerfd, and cancellation that may come from the
  callbacks themselves.  Times are microseconds; a timer's address can be used
  again once the timer is deleted.
*/
module Timers {
  import opened Options

  type Addr = nat

  /** A live Timer object; interval is in microseconds. */
  datatype Timer = Timer(expiration: int, interval: nat, repeat: bool, sequence: nat)

  datatype Entry = Entry(when: int, addr: Addr)

  /** TimerId and ActiveTimer: the address together with the sequence number. */
  datatype Id = Id(addr: Addr, seqno: nat)

  datatype Queue = Queue(
    heap: map<Addr, Timer>,      // the Timer objects that exist
    waiting: set<Addr>,          // constructed, addTimerInLoop still to come
    timers: seq<Entry>,          // timers_, in set order
    active: set<Id>,             // activeTimers_
    calling: bool,               // callingExpiredTimers_
    canceling: set<Id>,          // cancelingTimers_
    batch: seq<Entry>,           // handleRead's expired
    started: nat,                // how many callbacks of the batch have been called
    batchNow: int,               // handleRead's now
    created: nat,                // Timer::s_numCreated_
    armed: Option<int>,          // when the timerfd will fire
    armedAt: int,                // when it was last set
    fired: bool,                 // the timerfd has fired and was not read
    runs: seq<Id>)               // history: every callback called

  const EMPTY := Queue(map[], {}, [], {}, false, {}, [], 0, 0, 0, None, 0, false, [])

  /** std::pair<Timestamp, Timer*> order. */
  predicate Less(a: Entry, b: Entry) {
    a.when < b.when || (a.when == b.when && a.addr < b.addr)
  }

  predicate Sorted(ts: seq<Entry>) {
    forall i, j | 0 <= i < j < |ts| :: Less(ts[i], ts[j])
  }

  // ---------------------------------------------------------------- steps

  /** std::set::insert into the ordered list. */
  function Inserted(ts: seq<Entry>, e: Entry): seq<Entry> {
    if ts == [] || Less(e, ts[0]) then [e] + ts else [ts[0]] + Inserted(ts[1..], e)
  }

  function IdOf(q: Queue, a: Addr): Id
    requires a in q.heap
  {
    Id(a, q.heap[a].sequence)
  }

  function Max(a: int, b: int): int { if a < b then b else a }

  /** The 100 microsecond floor, TimerQueue.cc:45-48. */
  const FLOOR: int := 100

  /** TimerQueue.cc:68-81: a one-shot setting, which also forgets an unread expiry. */
  function Arm(q: Queue, when: int, now: int): Queue {
    q.(armed := Some(now + Max(when - now, FLOOR)), armedAt := now, fired := false)
  }

  predicate EarliestChanges(q: Queue, when: int) {
    q.timers == [] || when < q.timers[0].when
  }

  /** TimerQueue.cc:235-259. */
  function Insert(q: Queue, a: Addr): Queue
    requires a in q.heap
  {
    q.(timers := Inserted(q.timers, Entry(q.heap[a].expiration, a)), active := q.active + {IdOf(q, a)})
  }

  /** TimerQueue.cc:116-124, the part that any thread may run. */
  function New(q: Queue, a: Addr, when: int, interval: nat, repeat: bool): Queue {
    q.(heap := q.heap[a := Timer(when, interval, repeat, q.created + 1)],
       waiting := q.waiting + {a}, created := q.created + 1)
  }

  /** TimerQueue.cc:132-141. */
  function AddInLoop(q: Queue, a: Addr, now: int): Queue
    requires a in q.heap
  {
    var q1 := Insert(q.(waiting := q.waiting - {a}), a);
    if EarliestChanges(q, q.heap[a].expiration) then Arm(q1, q.heap[a].expiration, now) else q1
  }

  function Without(ts: seq<Entry>, e: Entry): seq<Entry> {
    if ts == [] then [] else if ts[0] == e then ts[1..] else [ts[0]] + Without(ts[1..], e)
  }

  /** TimerQueue.cc:143-161. */
  function Cancel(q: Queue, id: Id): Queue {
    if id in q.active && id.addr in q.heap then
      q.(timers := Without(q.timers, Entry(q.heap[id.addr].expiration, id.addr)),
         heap := q.heap - {id.addr}, active := q.active - {id})
    else if q.calling then q.(canceling := q.canceling + {id})
    else q
  }

  /** How many of the first entries are due, TimerQueue.cc:187-190. */
  function Due(ts: seq<Entry>, now: int): nat
    ensures Due(ts, now) <= |ts|
  {
    if ts == [] || ts[0].when > now then 0 else 1 + Due(ts[1..], now)
  }

  function Ids(q: Queue, es: seq<Entry>): seq<Id>
    requires forall i | 0 <= i < |es| :: es[i].addr in q.heap
  {
    seq(|es|, i requires 0 <= i < |es| => IdOf(q, es[i].addr))
  }

  function IdSet(ids: seq<Id>): set<Id> {
    set id | id in ids
  }

  lemma IdSetSnoc(ids: seq<Id>, i: nat)
    requires i < |ids|
    ensures IdSet(ids[..i + 1]) == IdSet(ids[..i]) + {ids[i]}
  {
  }

  lemma IdsSame(q: Queue, r: Queue, es: seq<Entry>)
    requires q.heap == r.heap && forall i | 0 <= i < |es| :: es[i].addr in q.heap
    ensures Ids(q, es) == Ids(r, es)
  {
  }

  /** TimerQueue.cc:166-172: read the timerfd and take out what is due. */
  function FireBegin(q: Queue, now: int): Queue
    requires forall i | 0 <= i < |q.timers| :: q.timers[i].addr in q.heap
  {
    var n := Due(q.timers, now);
    var ids := Ids(q, q.timers[..n]);
    q.(fired := false, timers := q.timers[n..], active := q.active - IdSet(ids), calling := true,
       canceling := {}, batch := q.timers[..n], started := 0, batchNow := now)
  }

  /** TimerQueue.cc:174-177 for the next entry of the batch; cancelingTimers_ is not looked at. */
  function Call(q: Queue): Queue
    requires q.started < |q.batch| && q.batch[q.started].addr in q.heap
  {
    q.(started := q.started + 1, runs := q.runs + [IdOf(q, q.batch[q.started].addr)])
  }

  /** TimerQueue.cc:208-222 for the first entry of the batch. */
  function ResetOne(q: Queue): Queue
    requires q.batch != [] && q.batch[0].addr in q.heap
  {
    var a := q.batch[0].addr;
    var t := q.heap[a];
    var q1 := q.(batch := q.batch[1..]);
    if t.repeat && IdOf(q, a) !in q.canceling then
      Insert(q1.(heap := q.heap[a := t.(expiration := q.batchNow + t.interval)]), a)
    else q1.(heap := q.heap - {a})
  }

  function ResetAll(q: Queue): Queue
    decreases |q.batch|
  {
    if q.batch == [] || q.batch[0].addr !in q.heap then q else ResetAll(ResetOne(q))
  }

  /** TimerQueue.cc:224-232. */
  function Rearm(q: Queue, now: int): Queue {
    if q.timers != [] && q.timers[0].when > 0 then Arm(q, q.timers[0].when, now) else q
  }

  /** TimerQueue.cc:178-180: the callbacks are done. */
  function FireEnd(q: Queue, now: int): Queue {
    Rearm(ResetAll(Quiet(q)), now)
  }

  function Quiet(q: Queue): Queue {
    q.(calling := false, started := 0)
  }

  datatype Action =
    | NewTimer(a: Addr, when: int, interval: nat, repeat: bool)
    | Add(a: Addr, now: int)
    | CancelTimer(id: Id)
    | Begin(now: int)
    | Callback
    | End(now: int)
    | KernelFires

  /** In handleRead the loop thread does other things only inside a callback. */
  predicate LoopFree(q: Queue) {
    q.calling ==> q.started > 0
  }

  /**
    The allocator gives out free addresses, a timer repeats if its interval is positive (before it is cut to whole
    microseconds, Timer.h:33), the clock is past 1970, and calls come one at a time.
  */
  predicate Enabled(q: Queue, act: Action) {
    match act
    case NewTimer(a, _, interval, repeat) => a !in q.heap && (interval > 0 ==> repeat)
    case Add(a, _) => a in q.waiting && a in q.heap && LoopFree(q)
    case CancelTimer(_) => LoopFree(q)
    case Begin(now) => !q.calling && now > 0 && forall i | 0 <= i < |q.timers| :: q.timers[i].addr in q.heap
    case Callback => q.calling && q.started < |q.batch| && q.batch[q.started].addr in q.heap
    case End(_) => q.calling && q.started == |q.batch|
    case KernelFires => q.armed.Some?
  }

  function Step(q: Queue, act: Action): Queue
    requires Enabled(q, act)
  {
    match act
    case NewTimer(a, when, interval, repeat) => New(q, a, when, interval, repeat)
    case Add(a, now) => AddInLoop(q, a, now)
    case CancelTimer(id) => Cancel(q, id)
    case Begin(now) => FireBegin(q, now)
    case Callback => Call(q)
    case End(now) => FireEnd(q, now)
    case KernelFires => q.(fired := true, armed := None)
  }

  // ---------------------------------------------------------------- lists

  lemma {:induction false} InsertedMember(ts: seq<Entry>, e: Entry, x: Entry)
    ensures x in Inserted(ts, e) <==> x in ts || x == e
  {
    if !(ts == [] || Less(e, ts[0])) {
      InsertedMember(ts[1..], e, x);
      assert ts == [ts[0]] + ts[1..];
    }
  }

  lemma {:induction false} InsertedSorted(ts: seq<Entry>, e: Entry)
    requires Sorted(ts) && e !in ts
    ensures Sorted(Inserted(ts, e)) && |Inserted(ts, e)| == |ts| + 1
    ensures Inserted(ts, e)[0] == if ts == [] || Less(e, ts[0]) then e else ts[0]
  {
    if ts == [] || Less(e, ts[0]) {
    } else {
      var rest := Inserted(ts[1..], e);
      InsertedSorted(ts[1..], e);
      assert Less(ts[0], e);
      forall i | 0 <= i < |rest| ensures Less(ts[0], rest[i]) {
        InsertedMember(ts[1..], e, rest[i]);
      }
    }
  }

  lemma {:induction false} WithoutParts(ts: seq<Entry>, e: Entry)
    requires Sorted(ts)
    ensures Sorted(Without(ts, e)) && |Without(ts, e)| == |ts| - (if e in ts then 1 else 0)
    ensures forall x :: x in Without(ts, e) <==> x in ts && x != e
  {
    if ts != [] {
      assert ts == [ts[0]] + ts[1..];
      WithoutParts(ts[1..], e);
      if ts[0] != e {
        var rest := Without(ts[1..], e);
        forall i | 0 <= i < |rest| ensures Less(ts[0], rest[i]) {
          assert rest[i] in ts[1..];
        }
      } else {
        forall x ensures x in ts[1..] <==> x in ts && x != e {
          assert x in ts[1..] ==> Less(ts[0], x);
        }
      }
    }
  }

  /** The due entries are exactly those at or before now. */
  lemma {:induction false} DueExactly(ts: seq<Entry>, now: int)
    requires Sorted(ts)
    ensures forall i | 0 <= i < |ts| :: i < Due(ts, now) <==> ts[i].when <= now
  {
    if ts == [] {
    } else if ts[0].when > now {
      forall i | 0 <= i < |ts| ensures ts[i].when > now {
        assert i > 0 ==> Less(ts[0], ts[i]);
      }
    } else {
      DueExactly(ts[1..], now);
      forall i | 0 <= i < |ts| ensures i < Due(ts, now) <==> ts[i].when <= now {
        assert i > 0 ==> ts[1..][i - 1] == ts[i];
      }
    }
  }

  // ---------------------------------------------------------------- the two indexes agree

  ghost predicate InBatch(q: Queue, a: Addr) {
    exists i :: 0 <= i < |q.batch| && q.batch[i].addr == a
  }

  /** Every entry of timers_ is a live timer under its current expiration, and is active. */
  predicate EntryOk(q: Queue, e: Entry) {
    e.addr in q.heap && q.heap[e.addr].expiration == e.when && IdOf(q, e.addr) in q.active
  }

  /** Every active id is a live timer that timers_ lists. */
  predicate ActiveOk(q: Queue, id: Id) {
    id.addr in q.heap && q.heap[id.addr].sequence == id.seqno && Entry(q.heap[id.addr].expiration, id.addr) in q.timers
  }

  /** A timer of the running batch is live, due, and in neither index. */
  predicate BatchOk(q: Queue, e: Entry) {
    && e.addr in q.heap && q.heap[e.addr].expiration == e.when <= q.batchNow
    && IdOf(q, e.addr) !in q.active && e.addr !in q.waiting
  }

  ghost predicate Indexes(q: Queue) {
    && Sorted(q.timers)
    && (forall i | 0 <= i < |q.timers| :: EntryOk(q, q.timers[i]))
    && (forall id | id in q.active :: ActiveOk(q, id))
    && (forall i | 0 <= i < |q.batch| :: BatchOk(q, q.batch[i]))
    && (forall i, j | 0 <= i < j < |q.batch| :: q.batch[i].addr != q.batch[j].addr)
  }

  /** Every live timer is waiting to be added, active, or firing; none has leaked. */
  ghost predicate Accounted(q: Queue) {
    && (forall a | a in q.waiting :: a in q.heap && IdOf(q, a) !in q.active)
    && (forall a | a in q.heap :: a in q.waiting || IdOf(q, a) in q.active || InBatch(q, a))
  }

  /** Sequence numbers have been given out once each. */
  predicate Numbered(q: Queue) {
    && (forall a | a in q.heap :: 1 <= q.heap[a].sequence <= q.created)
    && (forall a, b | a in q.heap && b in q.heap && a != b :: q.heap[a].sequence != q.heap[b].sequence)
  }

  ghost predicate Consistent(q: Queue) {
    Indexes(q) && Accounted(q) && Numbered(q)
  }

  lemma NewConsistent(q: Queue, a: Addr, when: int, interval: nat, repeat: bool)
    requires Consistent(q) && a !in q.heap
    ensures Consistent(New(q, a, when, interval, repeat))
  {
    hide Indexes, Accounted, Numbered;
    NewIndexes(q, a, when, interval, repeat);
    NewAccounted(q, a, when, interval, repeat);
  }

  lemma NewIndexes(q: Queue, a: Addr, when: int, interval: nat, repeat: bool)
    requires Indexes(q) && a !in q.heap
    ensures Indexes(New(q, a, when, interval, repeat))
  {
    hide Sorted;
    var r := New(q, a, when, interval, repeat);
    forall i | 0 <= i < |r.timers| ensures EntryOk(r, r.timers[i]) { assert EntryOk(q, q.timers[i]); }
    forall i | 0 <= i < |r.batch| ensures BatchOk(r, r.batch[i]) { assert BatchOk(q, q.batch[i]); }
    forall id | id in r.active ensures ActiveOk(r, id) { assert ActiveOk(q, id); }
  }

  lemma NewAccounted(q: Queue, a: Addr, when: int, interval: nat, repeat: bool)
    requires Consistent(q) && a !in q.heap
    ensures Accounted(New(q, a, when, interval, repeat)) && Numbered(New(q, a, when, interval, repeat))
  {
    hide Sorted, EntryOk, BatchOk;
    var r := New(q, a, when, interval, repeat);
    forall id | id in q.active ensures id.addr != a { assert ActiveOk(q, id); }
    forall b | b in r.heap ensures b in r.waiting || IdOf(r, b) in r.active || InBatch(r, b) {
      assert InBatch(q, b) ==> InBatch(r, b);
    }
  }

  /** Putting a live timer that is in neither index into both. */
  lemma InsertIndexes(q: Queue, a: Addr)
    requires Indexes(q) && Numbered(q) && a in q.heap && IdOf(q, a) !in q.active && a !in q.waiting && !InBatch(q, a)
    ensures Indexes(Insert(q, a)) && Entry(q.heap[a].expiration, a) !in q.timers
    ensures |Insert(q, a).timers| == |q.timers| + 1
  {
    var r, e := Insert(q, a), Entry(q.heap[a].expiration, a);
    forall i | 0 <= i < |q.timers| ensures q.timers[i] != e {
      assert EntryOk(q, q.timers[i]);
    }
    InsertedSorted(q.timers, e);
    forall i | 0 <= i < |r.timers| ensures EntryOk(r, r.timers[i]) {
      InsertedMember(q.timers, e, r.timers[i]);
      if r.timers[i] in q.timers {
        var k :| 0 <= k < |q.timers| && q.timers[k] == r.timers[i];
        assert EntryOk(q, q.timers[k]);
      }
    }
    forall id | id in r.active ensures ActiveOk(r, id) {
      InsertedMember(q.timers, e, Entry(q.heap[id.addr].expiration, id.addr));
    }
    forall i | 0 <= i < |r.batch| ensures BatchOk(r, r.batch[i]) {
      assert BatchOk(q, q.batch[i]);
      assert q.batch[i].addr != a;
    }
  }

  lemma InsertAccounted(q: Queue, a: Addr)
    requires a in q.heap && a !in q.waiting
    requires forall b | b in q.waiting :: b in q.heap && IdOf(q, b) !in q.active
    requires forall b | b in q.heap && b != a :: b in q.waiting || IdOf(q, b) in q.active || InBatch(q, b)
    ensures Accounted(Insert(q, a))
  {
    var r := Insert(q, a);
    forall b | b in r.heap ensures b in r.waiting || IdOf(r, b) in r.active || InBatch(r, b) {
      if b != a && InBatch(q, b) {
        var i :| 0 <= i < |q.batch| && q.batch[i].addr == b;
        assert r.batch[i].addr == b;
      }
    }
  }

  lemma AddConsistent(q: Queue, a: Addr, now: int)
    requires Consistent(q) && a in q.waiting && a in q.heap
    ensures Consistent(AddInLoop(q, a, now))
  {
    hide Sorted, Less, Inserted;
    var q1 := q.(waiting := q.waiting - {a});
    assert Indexes(q1) by {
      forall i | 0 <= i < |q1.batch| ensures BatchOk(q1, q1.batch[i]) { assert BatchOk(q, q.batch[i]); }
      forall i | 0 <= i < |q1.timers| ensures EntryOk(q1, q1.timers[i]) { assert EntryOk(q, q.timers[i]); }
      forall id | id in q1.active ensures ActiveOk(q1, id) { assert ActiveOk(q, id); }
    }
    forall i | 0 <= i < |q1.batch| ensures q1.batch[i].addr != a {
      assert BatchOk(q, q.batch[i]);
    }
    InsertIndexes(q1, a);
    forall b | b in q1.heap && b != a ensures b in q1.waiting || IdOf(q1, b) in q1.active || InBatch(q1, b) {
      assert InBatch(q, b) ==> InBatch(q1, b);
    }
    InsertAccounted(q1, a);
    SameButArming(Insert(q1, a), AddInLoop(q, a, now));
  }

  /** The timerfd and the progress of the callbacks have no part in consistency. */
  lemma SameButArming(q: Queue, r: Queue)
    requires Consistent(q)
    requires r == q.(armed := r.armed, armedAt := r.armedAt, fired := r.fired,
                     calling := r.calling, started := r.started, runs := r.runs)
    ensures Consistent(r)
  {
    forall i | 0 <= i < |r.timers| ensures EntryOk(r, r.timers[i]) { assert EntryOk(q, q.timers[i]); }
    forall i | 0 <= i < |r.batch| ensures BatchOk(r, r.batch[i]) { assert BatchOk(q, q.batch[i]); }
    forall id | id in r.active ensures ActiveOk(r, id) { assert ActiveOk(q, id); }
    forall a | a in r.heap ensures a in r.waiting || IdOf(r, a) in r.active || InBatch(r, a) {
      assert InBatch(q, a) ==> InBatch(r, a);
    }
  }

  lemma CancelIndexes(q: Queue, id: Id)
    requires Indexes(q) && id in q.active
    ensures Indexes(Cancel(q, id))
  {
    hide Sorted, Without;
    var r := Cancel(q, id);
    assert ActiveOk(q, id);
    WithoutParts(q.timers, Entry(q.heap[id.addr].expiration, id.addr));
    forall i | 0 <= i < |r.timers| ensures EntryOk(r, r.timers[i]) {
      assert r.timers[i] in q.timers;
      var k :| 0 <= k < |q.timers| && q.timers[k] == r.timers[i];
      assert EntryOk(q, q.timers[k]);
    }
    forall x | x in r.active ensures ActiveOk(r, x) { assert ActiveOk(q, x); }
    forall i | 0 <= i < |r.batch| ensures BatchOk(r, r.batch[i]) {
      assert BatchOk(q, q.batch[i]);
      assert q.batch[i].addr != id.addr;
    }
  }

  lemma CancelAccounted(q: Queue, id: Id)
    requires Consistent(q) && id in q.active
    ensures Accounted(Cancel(q, id)) && Numbered(Cancel(q, id))
  {
    hide Sorted, Without, BatchOk, EntryOk;
    var r := Cancel(q, id);
    assert ActiveOk(q, id);
    forall a | a in r.heap ensures a in r.waiting || IdOf(r, a) in r.active || InBatch(r, a) {
      assert InBatch(q, a) ==> InBatch(r, a);
    }
  }

  lemma CancelOtherConsistent(q: Queue, id: Id)
    requires Consistent(q) && id !in q.active
    ensures Consistent(Cancel(q, id))
  {
    var r := Cancel(q, id);
    forall i | 0 <= i < |r.timers| ensures EntryOk(r, r.timers[i]) { assert EntryOk(q, q.timers[i]); }
    forall i | 0 <= i < |r.batch| ensures BatchOk(r, r.batch[i]) { assert BatchOk(q, q.batch[i]); }
    forall x | x in r.active ensures ActiveOk(r, x) { assert ActiveOk(q, x); }
    forall a | a in r.heap ensures a in r.waiting || IdOf(r, a) in r.active || InBatch(r, a) {
      assert InBatch(q, a) ==> InBatch(r, a);
    }
  }

  lemma CancelConsistent(q: Queue, id: Id)
    requires Consistent(q)
    ensures Consistent(Cancel(q, id))
  {
    hide Indexes, Accounted, Numbered, Cancel;
    if id in q.active {
      CancelIndexes(q, id);
      CancelAccounted(q, id);
    } else {
      CancelOtherConsistent(q, id);
    }
  }

  /** The ids of the due timers are those of the first n entries and of no later one. */
  lemma DueIds(q: Queue, n: nat, id: Id)
    requires Indexes(q) && n <= |q.timers|
    requires forall i | 0 <= i < |q.timers| :: q.timers[i].addr in q.heap
    ensures forall k | 0 <= k < n :: Ids(q, q.timers[..n])[k] == IdOf(q, q.timers[k].addr)
    ensures id in Ids(q, q.timers[..n]) <==> exists k :: 0 <= k < n && IdOf(q, q.timers[k].addr) == id
    ensures forall i | n <= i < |q.timers| :: IdOf(q, q.timers[i].addr) !in Ids(q, q.timers[..n])
  {
    AddressesDistinct(q);
    var ids := Ids(q, q.timers[..n]);
    assert forall k | 0 <= k < n :: ids[k] == IdOf(q, q.timers[k].addr);
    if k :| 0 <= k < n && IdOf(q, q.timers[k].addr) == id {
      assert ids[k] == id;
    }
  }

  lemma BeginEntries(q: Queue, now: int)
    requires Indexes(q) && forall i | 0 <= i < |q.timers| :: q.timers[i].addr in q.heap
    ensures var r := FireBegin(q, now); Sorted(r.timers) && forall i | 0 <= i < |r.timers| :: EntryOk(r, r.timers[i])
  {
    var r, n := FireBegin(q, now), Due(q.timers, now);
    forall i | 0 <= i < |r.timers| ensures EntryOk(r, r.timers[i]) {
      assert r.timers[i] == q.timers[n + i] && EntryOk(q, q.timers[n + i]);
      DueIds(q, n, IdOf(q, q.timers[n + i].addr));
    }
  }

  lemma BeginActive(q: Queue, now: int, id: Id)
    requires Indexes(q) && forall i | 0 <= i < |q.timers| :: q.timers[i].addr in q.heap
    requires id in FireBegin(q, now).active
    ensures ActiveOk(FireBegin(q, now), id)
  {
    var r, n := FireBegin(q, now), Due(q.timers, now);
    assert ActiveOk(q, id);
    var e := Entry(q.heap[id.addr].expiration, id.addr);
    var k :| 0 <= k < |q.timers| && q.timers[k] == e;
    DueIds(q, n, id);
    assert k >= n;
    assert r.timers[k - n] == e;
  }

  lemma BeginBatch(q: Queue, now: int, i: nat)
    requires Indexes(q) && Accounted(q) && forall i | 0 <= i < |q.timers| :: q.timers[i].addr in q.heap
    requires i < |FireBegin(q, now).batch|
    ensures BatchOk(FireBegin(q, now), FireBegin(q, now).batch[i])
  {
    var r, n := FireBegin(q, now), Due(q.timers, now);
    DueExactly(q.timers, now);
    assert r.batch[i] == q.timers[i] && EntryOk(q, q.timers[i]);
    DueIds(q, n, IdOf(q, r.batch[i].addr));
  }

  lemma BeginAccounted(q: Queue, now: int, a: Addr)
    requires Indexes(q) && Accounted(q) && q.batch == []
    requires forall i | 0 <= i < |q.timers| :: q.timers[i].addr in q.heap
    requires a in q.heap
    ensures var r := FireBegin(q, now); a in r.waiting || IdOf(r, a) in r.active || InBatch(r, a)
  {
    var r, n := FireBegin(q, now), Due(q.timers, now);
    DueIds(q, n, IdOf(q, a));
    if IdOf(q, a) in q.active && IdOf(q, a) !in r.active {
      var k :| 0 <= k < n && IdOf(q, q.timers[k].addr) == IdOf(q, a);
      assert r.batch[k].addr == a;
    }
  }

  /** Taking the due timers out of both indexes. */
  lemma BeginConsistent(q: Queue, now: int)
    requires Consistent(q) && q.batch == []
    requires forall i | 0 <= i < |q.timers| :: q.timers[i].addr in q.heap
    ensures Consistent(FireBegin(q, now))
  {
    hide EntryOk, ActiveOk, BatchOk, InBatch, Due, Ids, Sorted;
    var r, n := FireBegin(q, now), Due(q.timers, now);
    BeginEntries(q, now);
    forall id | id in r.active ensures ActiveOk(r, id) { BeginActive(q, now, id); }
    forall i: nat | i < |r.batch| ensures BatchOk(r, r.batch[i]) { BeginBatch(q, now, i); }
    AddressesDistinct(q);
    forall i, j | 0 <= i < j < |r.batch| ensures r.batch[i].addr != r.batch[j].addr {
      assert r.batch[i] == q.timers[i] && r.batch[j] == q.timers[j];
    }
    forall a | a in r.heap ensures a in r.waiting || IdOf(r, a) in r.active || InBatch(r, a) {
      BeginAccounted(q, now, a);
    }
  }

  lemma AddressesDistinct(q: Queue)
    requires Indexes(q)
    ensures forall i, j | 0 <= i < j < |q.timers| :: q.timers[i].addr != q.timers[j].addr
  {
    forall i, j | 0 <= i < j < |q.timers| ensures q.timers[i].addr != q.timers[j].addr {
      assert EntryOk(q, q.timers[i]) && EntryOk(q, q.timers[j]) && Less(q.timers[i], q.timers[j]);
    }
  }

  /** Dropping the first timer of the batch from the batch. */
  lemma PopBatch(q: Queue, a: Addr, i: int)
    requires Indexes(q) && q.batch != [] && q.batch[0].addr == a && 0 <= i < |q.batch| - 1
    ensures q.batch[1..][i] == q.batch[i + 1] && q.batch[i + 1].addr != a && BatchOk(q, q.batch[i + 1])
  {
  }

  /** The batch without its first timer, which is restarted or deleted but not yet listed. */
  function Popped(q: Queue): Queue
    requires q.batch != [] && q.batch[0].addr in q.heap
  {
    var a := q.batch[0].addr;
    var t := q.heap[a];
    q.(batch := q.batch[1..],
       heap := if Kept(q) then q.heap[a := t.(expiration := q.batchNow + t.interval)] else q.heap - {a})
  }

  predicate Kept(q: Queue)
    requires q.batch != [] && q.batch[0].addr in q.heap
  {
    q.heap[q.batch[0].addr].repeat && IdOf(q, q.batch[0].addr) !in q.canceling
  }

  lemma PoppedIndexes(q: Queue)
    requires Consistent(q) && q.batch != [] && q.batch[0].addr in q.heap
    ensures Indexes(Popped(q)) && Numbered(Popped(q)) && !InBatch(Popped(q), q.batch[0].addr)
  {
    var a, q1 := q.batch[0].addr, Popped(q);
    assert BatchOk(q, q.batch[0]);
    forall i | 0 <= i < |q1.timers| ensures EntryOk(q1, q1.timers[i]) { assert EntryOk(q, q.timers[i]); }
    forall id | id in q1.active ensures ActiveOk(q1, id) { assert ActiveOk(q, id); }
    forall i | 0 <= i < |q1.batch| ensures BatchOk(q1, q1.batch[i]) && q1.batch[i].addr != a { PopBatch(q, a, i); }
    forall i, j | 0 <= i < j < |q1.batch| ensures q1.batch[i].addr != q1.batch[j].addr {
      assert q1.batch[i] == q.batch[i + 1] && q1.batch[j] == q.batch[j + 1];
    }
  }

  lemma PoppedAccounted(q: Queue, b: Addr)
    requires Consistent(q) && q.batch != [] && q.batch[0].addr in q.heap
    requires b in Popped(q).heap && b != q.batch[0].addr
    ensures var q1 := Popped(q); b in q1.waiting || IdOf(q1, b) in q1.active || InBatch(q1, b)
  {
    var q1 := Popped(q);
    if InBatch(q, b) {
      var i :| 0 <= i < |q.batch| && q.batch[i].addr == b;
      assert q1.batch[i - 1].addr == b;
    }
  }

  lemma FirstOfBatch(q: Queue)
    requires Indexes(q) && q.batch != []
    ensures var a := q.batch[0].addr; a in q.heap && IdOf(q, a) !in q.active && a !in q.waiting
  {
    assert BatchOk(q, q.batch[0]);
  }

  lemma ResetOneConsistent(q: Queue)
    requires Consistent(q) && q.batch != []
    ensures q.batch[0].addr in q.heap && Consistent(ResetOne(q))
  {
    hide EntryOk, ActiveOk, BatchOk, Indexes, InBatch, Sorted;
    FirstOfBatch(q);
    var a, q1 := q.batch[0].addr, Popped(q);
    PoppedIndexes(q);
    forall b | b in q1.heap && b != a ensures b in q1.waiting || IdOf(q1, b) in q1.active || InBatch(q1, b) {
      PoppedAccounted(q, b);
    }
    if Kept(q) {
      InsertIndexes(q1, a);
      InsertAccounted(q1, a);
      assert ResetOne(q) == Insert(q1, a);
    } else {
      assert ResetOne(q) == q1;
    }
  }

  lemma {:induction false} ResetAllConsistent(q: Queue)
    requires Consistent(q)
    ensures Consistent(ResetAll(q)) && ResetAll(q).batch == []
    decreases |q.batch|
  {
    hide Consistent;
    if q.batch != [] {
      ResetOneConsistent(q);
      ResetAllConsistent(ResetOne(q));
    }
  }

  // ---------------------------------------------------------------- the timerfd

  /** The timerfd has fired unread, or will fire by the earliest expiration or 100 us after it was set. */
  predicate Alarmed(q: Queue)
    requires q.timers != []
  {
    q.fired || (q.armed.Some? && q.armed.value <= Max(q.timers[0].when, q.armedAt + FLOOR))
  }

  /** Outside handleRead always; inside it for timers that reset() will not arm for. */
  predicate AlarmOk(q: Queue) {
    q.timers != [] && (q.calling ==> q.timers[0].when <= 0) ==> Alarmed(q)
  }

  ghost predicate Inv(q: Queue) {
    && Consistent(q) && AlarmOk(q)
    && (if q.calling then q.batchNow > 0 && q.started <= |q.batch| else q.batch == [] && q.started == 0)
  }

  lemma AddAlarm(q: Queue, a: Addr, now: int)
    requires Inv(q) && a in q.waiting && a in q.heap
    ensures AlarmOk(AddInLoop(q, a, now))
  {
    var e := Entry(q.heap[a].expiration, a);
    forall i | 0 <= i < |q.timers| ensures q.timers[i] != e {
      assert EntryOk(q, q.timers[i]);
    }
    InsertedSorted(q.timers, e);
  }

  lemma CancelAlarm(q: Queue, id: Id)
    requires Inv(q)
    ensures AlarmOk(Cancel(q, id))
  {
    var r := Cancel(q, id);
    if id in q.active && id.addr in q.heap {
      WithoutParts(q.timers, Entry(q.heap[id.addr].expiration, id.addr));
      if r.timers != [] {
        assert r.timers[0] in q.timers;
        var k :| 0 <= k < |q.timers| && q.timers[k] == r.timers[0];
        assert k > 0 ==> Less(q.timers[0], q.timers[k]);
      }
    }
  }

  lemma BeginAlarm(q: Queue, now: int)
    requires Inv(q) && now > 0 && forall i | 0 <= i < |q.timers| :: q.timers[i].addr in q.heap
    ensures AlarmOk(FireBegin(q, now))
  {
    DueExactly(q.timers, now);
    var r, n := FireBegin(q, now), Due(q.timers, now);
    if r.timers != [] {
      assert r.timers[0] == q.timers[n];
    }
  }

  /** While the batch is put back, an early timer keeps the alarm that was set for it. */
  predicate EarlyAlarmed(q: Queue) {
    q.batchNow > 0 && (q.timers != [] && q.timers[0].when <= 0 ==> Alarmed(q))
  }

  lemma ResetOneAlarm(q: Queue)
    requires Consistent(q) && q.batch != [] && EarlyAlarmed(q)
    ensures q.batch[0].addr in q.heap && EarlyAlarmed(ResetOne(q)) && ResetOne(q).batchNow == q.batchNow
  {
    hide EntryOk, ActiveOk, BatchOk, Sorted, InBatch, Indexes, Accounted, Numbered;
    FirstOfBatch(q);
    var a := q.batch[0].addr;
    PoppedIndexes(q);
    if Kept(q) {
      InsertIndexes(Popped(q), a);
      InsertedFirst(Popped(q), Entry(Popped(q).heap[a].expiration, a));
    }
  }

  lemma InsertedFirst(q: Queue, e: Entry)
    requires Indexes(q) && e !in q.timers
    ensures Inserted(q.timers, e)[0] == if q.timers == [] || Less(e, q.timers[0]) then e else q.timers[0]
  {
    InsertedSorted(q.timers, e);
  }

  lemma {:induction false} ResetAllAlarm(q: Queue)
    requires Consistent(q) && EarlyAlarmed(q)
    ensures EarlyAlarmed(ResetAll(q))
    decreases |q.batch|
  {
    hide Consistent, EarlyAlarmed, ResetOne;
    if q.batch != [] {
      ResetOneConsistent(q);
      ResetOneAlarm(q);
      ResetOneBatch(q);
      ResetAllAlarm(ResetOne(q));
    }
  }

  lemma ResetOneBatch(q: Queue)
    requires q.batch != [] && q.batch[0].addr in q.heap
    ensures ResetOne(q).batch == q.batch[1..] && ResetOne(q).calling == q.calling
    ensures ResetOne(q).canceling == q.canceling && ResetOne(q).runs == q.runs && ResetOne(q).created == q.created
    ensures ResetOne(q).started == q.started && ResetOne(q).waiting == q.waiting
  {
  }

  lemma {:induction false} ResetAllFrame(q: Queue)
    ensures var r := ResetAll(q);
      && r.calling == q.calling && r.canceling == q.canceling && r.runs == q.runs && r.created == q.created
      && r.started == q.started && r.waiting == q.waiting
    decreases |q.batch|
  {
    if q.batch != [] && q.batch[0].addr in q.heap {
      ResetOneBatch(q);
      ResetAllFrame(ResetOne(q));
    }
  }

  lemma EndInv(q: Queue, now: int)
    requires Inv(q) && q.calling
    ensures Inv(FireEnd(q, now))
  {
    hide Consistent, ResetAll;
    var q1 := Quiet(q);
    SameButArming(q, q1);
    ResetAllConsistent(q1);
    ResetAllAlarm(q1);
    ResetAllFrame(q1);
    var r := ResetAll(q1);
    SameButArming(r, Rearm(r, now));
  }

  /** Every step keeps the indexes consistent and the alarm set. */
  lemma StepInv(q: Queue, act: Action)
    requires Inv(q) && Enabled(q, act)
    ensures Inv(Step(q, act))
  {
    hide Consistent, AlarmOk;
    match act
    case NewTimer(a, when, interval, repeat) =>
      NewConsistent(q, a, when, interval, repeat);
      NewAlarm(q, a, when, interval, repeat);
    case Add(a, now) =>
      AddConsistent(q, a, now);
      AddAlarm(q, a, now);
    case CancelTimer(id) =>
      CancelConsistent(q, id);
      CancelAlarm(q, id);
    case Begin(now) =>
      BeginConsistent(q, now);
      BeginAlarm(q, now);
    case Callback =>
      SameButArming(q, Step(q, act));
      CallAlarm(q);
    case End(now) => EndInv(q, now);
    case KernelFires =>
      SameButArming(q, Step(q, act));
      FiresAlarm(q);
  }

  lemma CallAlarm(q: Queue)
    requires AlarmOk(q) && q.started < |q.batch| && q.batch[q.started].addr in q.heap
    ensures AlarmOk(Call(q))
  {
  }

  lemma NewAlarm(q: Queue, a: Addr, when: int, interval: nat, repeat: bool)
    requires AlarmOk(q)
    ensures AlarmOk(New(q, a, when, interval, repeat))
  {
  }

  lemma FiresAlarm(q: Queue)
    ensures AlarmOk(q.(fired := true, armed := None))
  {
  }

  // ---------------------------------------------------------------- all runs

  predicate Possible(q: Queue, run: seq<Action>)
    decreases |run|
  {
    run == [] || (Enabled(q, run[0]) && Possible(Step(q, run[0]), run[1..]))
  }

  function Exec(q: Queue, run: seq<Action>): Queue
    requires Possible(q, run)
    decreases |run|
  {
    if run == [] then q else Exec(Step(q, run[0]), run[1..])
  }

  lemma {:induction false} RunInv(q: Queue, run: seq<Action>)
    requires Inv(q) && Possible(q, run)
    ensures Inv(Exec(q, run))
    decreases |run|
  {
    hide Inv, Step, Enabled;
    if run != [] {
      StepInv(q, run[0]);
      RunInv(Step(q, run[0]), run[1..]);
    }
  }

  /**
    After every run the two indexes list the same timers under their current
    expirations, no timer has leaked, and outside handleRead a non-empty queue has
    its alarm.
  */
  lemma SchedulerSafe(run: seq<Action>)
    requires Possible(EMPTY, run)
    ensures var q := Exec(EMPTY, run);
      && Consistent(q) && |q.timers| == |q.active|
      && (!q.calling && q.timers != [] ==> Alarmed(q))
  {
    RunInv(EMPTY, run);
    SizesAgree(Exec(EMPTY, run));
  }

  /** What the code asserts after each change: timers_.size() == activeTimers_.size(). */
  lemma SizesAgree(q: Queue)
    requires Consistent(q)
    ensures |q.timers| == |q.active|
  {
    forall i | 0 <= i < |q.timers| ensures q.timers[i].addr in q.heap { assert EntryOk(q, q.timers[i]); }
    var ids := Ids(q, q.timers);
    AddressesDistinct(q);
    forall id | id in q.active ensures id in ids {
      assert ActiveOk(q, id);
      var k :| 0 <= k < |q.timers| && q.timers[k] == Entry(q.heap[id.addr].expiration, id.addr);
      assert ids[k] == id;
    }
    forall id | id in ids ensures id in q.active {
      var k :| 0 <= k < |ids| && ids[k] == id;
      assert EntryOk(q, q.timers[k]);
    }
    assert q.active == IdSet(ids);
    DistinctSize(ids);
  }

  lemma {:induction false} DistinctSize(ids: seq<Id>)
    requires forall i, j | 0 <= i < j < |ids| :: ids[i] != ids[j]
    ensures |IdSet(ids)| == |ids|
  {
    if ids != [] {
      var k := |ids| - 1;
      DistinctSize(ids[..k]);
      assert IdSet(ids) == IdSet(ids[..k]) + {ids[k]};
    }
  }

  /** getExpired(now) takes out exactly the timers at or before now, in expiration order. */
  lemma ExpiredExactly(q: Queue, now: int, e: Entry)
    requires Inv(q) && Enabled(q, Begin(now))
    ensures var r := Step(q, Begin(now));
      && (e in r.batch <==> e in q.timers && e.when <= now)
      && (e in r.timers <==> e in q.timers && e.when > now)
      && Sorted(r.batch) && q.timers == r.batch + r.timers
  {
    hide Inv, Ids, IdSet, Due, Sorted;
    InvSorted(q);
    SplitAtDue(q.timers, now, e);
  }

  lemma InvSorted(q: Queue)
    requires Inv(q)
    ensures Sorted(q.timers)
  {
  }

  lemma SplitAtDue(ts: seq<Entry>, now: int, e: Entry)
    requires Sorted(ts)
    ensures var n := Due(ts, now);
      && ts == ts[..n] + ts[n..] && Sorted(ts[..n])
      && (e in ts[..n] <==> e in ts && e.when <= now)
      && (e in ts[n..] <==> e in ts && e.when > now)
  {
    hide Due, Less;
    var n := Due(ts, now);
    DueExactly(ts, now);
    assert ts == ts[..n] + ts[n..];
    if e in ts[..n] {
      var i :| 0 <= i < n && ts[..n][i] == e;
      assert ts[i] == e;
    }
    if e in ts[n..] {
      var i :| 0 <= i < |ts| - n && ts[n..][i] == e;
      assert ts[n + i] == e;
    }
  }

  // ---------------------------------------------------------------- cancellation

  /** No live timer has this id, and none ever will again. */
  predicate Dead(q: Queue, id: Id) {
    id.seqno <= q.created && forall a | a in q.heap :: q.heap[a].sequence != id.seqno
  }

  /** The timer is firing and has been cancelled by a callback of its batch. */
  ghost predicate Doomed(q: Queue, id: Id) {
    q.calling && id in q.canceling && id.addr in q.heap && IdOf(q, id.addr) == id && InBatch(q, id.addr)
  }

  ghost predicate Gone(q: Queue, id: Id) {
    Dead(q, id) || Doomed(q, id)
  }

  /** reset() deletes the timers of the batch that were cancelled or do not repeat, and re-lists the others. */
  ghost predicate Settled(q: Queue, r: Queue, a: Addr)
    requires a in q.heap
  {
    var t := q.heap[a];
    if t.repeat && IdOf(q, a) !in q.canceling
    then a in r.heap && r.heap[a] == t.(expiration := q.batchNow + t.interval) && IdOf(r, a) in r.active
    else a !in r.heap
  }

  lemma PoppedBatch(q: Queue, a: Addr)
    requires Consistent(q) && q.batch != [] && q.batch[0].addr in q.heap
    ensures InBatch(ResetOne(q), a) <==> InBatch(q, a) && q.batch[0].addr != a
  {
    PoppedIndexes(q);
    var r := ResetOne(q);
    ResetOneBatch(q);
    assert r.batch == Popped(q).batch;
    if InBatch(q, a) && q.batch[0].addr != a {
      var i :| 0 <= i < |q.batch| && q.batch[i].addr == a;
      assert r.batch[i - 1].addr == a;
    }
    if InBatch(r, a) {
      var i :| 0 <= i < |r.batch| && r.batch[i].addr == a;
      assert q.batch[i + 1].addr == a;
    }
  }

  /** One turn of reset()'s loop settles the first timer and leaves the other ones to come. */
  lemma ResetOneSettles(q: Queue, a: Addr)
    requires Consistent(q) && q.batch != [] && a in q.heap
    ensures q.batch[0].addr in q.heap
    ensures q.batch[0].addr == a ==> Settled(q, ResetOne(q), a) && !InBatch(ResetOne(q), a)
    ensures q.batch[0].addr != a ==> a in ResetOne(q).heap && ResetOne(q).heap[a] == q.heap[a]
    ensures q.batch[0].addr != a ==> (InBatch(ResetOne(q), a) <==> InBatch(q, a))
    ensures q.batch[0].addr != a ==> (IdOf(q, a) in q.active <==> IdOf(q, a) in ResetOne(q).active)
    ensures ResetOne(q).batchNow == q.batchNow && ResetOne(q).canceling == q.canceling
  {
    assert BatchOk(q, q.batch[0]);
    PoppedBatch(q, a);
    hide Consistent, InBatch, BatchOk, Inserted;
  }

  /** A timer outside the batch is left as it is. */
  lemma {:induction false} ResetAllKeeps(q: Queue, a: Addr)
    requires Consistent(q) && a in q.heap && !InBatch(q, a)
    ensures var r := ResetAll(q); a in r.heap && r.heap[a] == q.heap[a]
    ensures IdOf(q, a) in q.active ==> IdOf(q, a) in ResetAll(q).active
    decreases |q.batch|
  {
    if q.batch != [] {
      assert q.batch[0].addr != a;
      ResetOneSettles(q, a);
      ResetOneConsistent(q);
      ResetAllKeeps(ResetOne(q), a);
    }
  }

  lemma {:induction false} ResetAllSettles(q: Queue, a: Addr)
    requires Consistent(q) && a in q.heap && InBatch(q, a)
    ensures Settled(q, ResetAll(q), a)
    decreases |q.batch|
  {
    hide Consistent, ResetOne, InBatch;
    BatchNotEmpty(q, a);
    ResetOneSettles(q, a);
    ResetOneConsistent(q);
    ResetOneBatch(q);
    var q1 := ResetOne(q);
    if q.batch[0].addr == a {
      if a in q1.heap {
        ResetAllKeeps(q1, a);
      } else {
        ResetAllAdds(q1, a);
      }
    } else {
      ResetAllSettles(q1, a);
    }
  }

  lemma BatchNotEmpty(q: Queue, a: Addr)
    requires InBatch(q, a)
    ensures q.batch != []
  {
  }

  /** reset() creates no timer. */
  lemma {:induction false} ResetAllAdds(q: Queue, a: Addr)
    requires a !in q.heap
    ensures a !in ResetAll(q).heap
    decreases |q.batch|
  {
    if q.batch != [] && q.batch[0].addr in q.heap {
      ResetAllAdds(ResetOne(q), a);
    }
  }

  /** reset() renumbers no timer. */
  lemma {:induction false} ResetAllNumbers(q: Queue, a: Addr)
    requires a in ResetAll(q).heap
    ensures a in q.heap && ResetAll(q).heap[a].sequence == q.heap[a].sequence
    decreases |q.batch|
  {
    if q.batch != [] && q.batch[0].addr in q.heap {
      ResetAllNumbers(ResetOne(q), a);
    }
  }

  /**
    After the callbacks of a batch: every repeating timer of it that was not
    cancelled is listed again, an interval after the batch's time, and every other
    one is deleted.
  */
  lemma BatchSettles(q: Queue, now: int, a: Addr)
    requires Inv(q) && q.calling && a in q.heap && InBatch(q, a)
    ensures Settled(q, FireEnd(q, now), a)
  {
    hide Consistent, AlarmOk, ResetAll, Sorted;
    var q1 := Quiet(q);
    SameButArming(q, q1);
    assert InBatch(q1, a);
    ResetAllSettles(q1, a);
  }

  lemma DeadStep(q: Queue, act: Action, id: Id)
    requires Inv(q) && Enabled(q, act) && Dead(q, id)
    ensures Dead(Step(q, act), id)
  {
    match act
    case End(now) =>
      var q1 := Quiet(q);
      var r := ResetAll(q1);
      ResetAllFrame(q1);
      forall a | a in r.heap ensures r.heap[a].sequence != id.seqno { ResetAllNumbers(q1, a); }
    case _ =>
  }

  lemma DoomedStep(q: Queue, act: Action, id: Id)
    requires Inv(q) && Enabled(q, act) && Doomed(q, id)
    ensures Gone(Step(q, act), id)
  {
    var a := id.addr;
    var i :| 0 <= i < |q.batch| && q.batch[i].addr == a;
    assert BatchOk(q, q.batch[i]);
    match act
    case End(now) =>
      DoomedEnds(q, now, id);
    case CancelTimer(other) =>
      if other in q.active { assert ActiveOk(q, other); }
      assert Step(q, act).batch[i].addr == a;
    case Begin(_) =>
    case Callback =>
      assert Step(q, act).batch[i].addr == a;
    case NewTimer(_, _, _, _) =>
      assert Step(q, act).batch[i].addr == a;
    case Add(_, _) =>
      assert Step(q, act).batch[i].addr == a;
    case KernelFires =>
      assert Step(q, act).batch[i].addr == a;
  }

  lemma DoomedEnds(q: Queue, now: int, id: Id)
    requires Inv(q) && Doomed(q, id)
    ensures Dead(FireEnd(q, now), id)
  {
    BatchSettles(q, now, id.addr);
    var q1 := Quiet(q);
    var r := ResetAll(q1);
    ResetAllFrame(q1);
    forall b | b in r.heap ensures r.heap[b].sequence != id.seqno {
      ResetAllNumbers(q1, b);
    }
  }

  lemma GoneStep(q: Queue, act: Action, id: Id)
    requires Inv(q) && Enabled(q, act) && Gone(q, id)
    ensures Gone(Step(q, act), id)
  {
    if Dead(q, id) {
      DeadStep(q, act, id);
    } else {
      DoomedStep(q, act, id);
    }
  }

  /** The id names a timer that exists. */
  predicate Names(q: Queue, id: Id) {
    id.addr in q.heap && q.heap[id.addr].sequence == id.seqno
  }

  /** The timer is in the running batch and its callback has not been called yet. */
  ghost predicate StillDue(q: Queue, id: Id) {
    q.calling && Names(q, id) && exists i :: q.started <= i < |q.batch| && q.batch[i].addr == id.addr
  }

  function CalledIn(q: Queue, act: Action): seq<Id>
    requires Enabled(q, act)
  {
    if act.Callback? then [IdOf(q, q.batch[q.started].addr)] else []
  }

  /** The callbacks that a run calls, in order. */
  function Called(q: Queue, run: seq<Action>): seq<Id>
    requires Possible(q, run)
    decreases |run|
  {
    if run == [] then [] else CalledIn(q, run[0]) + Called(Step(q, run[0]), run[1..])
  }

  lemma StepCalls(q: Queue, act: Action)
    requires Enabled(q, act)
    ensures Step(q, act).runs == q.runs + CalledIn(q, act)
  {
    if act.End? {
      ResetAllFrame(Quiet(q));
    }
  }

  lemma {:induction false} RunCalls(q: Queue, run: seq<Action>)
    requires Possible(q, run)
    ensures Exec(q, run).runs == q.runs + Called(q, run)
    decreases |run|
  {
    hide Step, Enabled, CalledIn;
    if run != [] {
      StepCalls(q, run[0]);
      RunCalls(Step(q, run[0]), run[1..]);
    }
  }

  function Bit(b: bool): nat {
    if b then 1 else 0
  }

  /** A step calls a timer that is gone just when that timer stops being due. */
  lemma GoneCount(q: Queue, act: Action, id: Id)
    requires Inv(q) && Enabled(q, act) && Gone(q, id)
    ensures multiset(CalledIn(q, act))[id] + Bit(StillDue(Step(q, act), id)) == Bit(StillDue(q, id))
  {
    if act.Callback? {
      CallbackCount(q, id);
    } else if act.Begin? || act.End? {
      GoneStep(q, act, id);
      ResetAllFrame(Quiet(q));
    } else {
      SameDue(q, act, id);
    }
  }

  lemma CallbackCount(q: Queue, id: Id)
    requires Inv(q) && Enabled(q, Callback)
    ensures multiset(CalledIn(q, Callback))[id] + Bit(StillDue(Call(q), id)) == Bit(StillDue(q, id))
  {
    var r, k := Call(q), q.started;
    assert r.batch == q.batch;
    if StillDue(r, id) {
      var i :| r.started <= i < |r.batch| && r.batch[i].addr == id.addr;
      assert q.batch[k].addr != q.batch[i].addr;
    }
    if StillDue(q, id) && IdOf(q, q.batch[k].addr) != id {
      var i :| k <= i < |q.batch| && q.batch[i].addr == id.addr;
      assert i != k;
      assert r.started <= i < |r.batch| && r.batch[i].addr == id.addr;
    }
    if IdOf(q, q.batch[k].addr) == id {
      assert StillDue(q, id);
    }
  }

  lemma SameDue(q: Queue, act: Action, id: Id)
    requires Inv(q) && Enabled(q, act) && !act.Callback? && !act.Begin? && !act.End?
    ensures StillDue(Step(q, act), id) <==> StillDue(q, id)
  {
    var r := Step(q, act);
    assert r.batch == q.batch && r.started == q.started && r.calling == q.calling;
    forall i: nat | i < |q.batch|
      ensures q.batch[i].addr in q.heap && q.batch[i].addr in r.heap
      ensures r.heap[q.batch[i].addr] == q.heap[q.batch[i].addr]
    {
      BatchKept(q, act, i);
    }
    hide Inv, Step, Enabled;
  }

  lemma BatchKept(q: Queue, act: Action, i: nat)
    requires Inv(q) && Enabled(q, act) && !act.Callback? && !act.Begin? && !act.End? && i < |q.batch|
    ensures var r, a := Step(q, act), q.batch[i].addr;
      && r.batch == q.batch && r.started == q.started && r.calling == q.calling
      && a in q.heap && a in r.heap && r.heap[a] == q.heap[a]
  {
    hide Sorted, Inserted, Without, Accounted, Numbered;
    assert BatchOk(q, q.batch[i]);
    if act.CancelTimer? && act.id in q.active {
      assert ActiveOk(q, act.id);
    }
  }

  /**
    A timer that is gone is called again only if it is still due in the running
    batch, then once, and never in a later batch, whatever happens and whatever
    reuses its address: the calls a run makes and the call still due after it are
    the call due before it.
  */
  lemma {:induction false} GoneForever(q: Queue, run: seq<Action>, id: Id)
    requires Inv(q) && Possible(q, run) && Gone(q, id)
    ensures Gone(Exec(q, run), id)
    ensures multiset(Called(q, run))[id] + Bit(StillDue(Exec(q, run), id)) == Bit(StillDue(q, id))
    ensures !Exec(q, run).calling ==> multiset(Called(q, run))[id] == Bit(StillDue(q, id))
    decreases |run|
  {
    hide Inv, Gone, Step, Enabled, CalledIn;
    if run != [] {
      var q1 := Step(q, run[0]);
      StepInv(q, run[0]);
      GoneStep(q, run[0], id);
      GoneCount(q, run[0], id);
      GoneForever(q1, run[1..], id);
    }
  }

  // ---------------------------------------------------------------- when a cancel works

  lemma CancelGone(q: Queue, id: Id)
    requires Inv(q) && Names(q, id)
    ensures Gone(Cancel(q, id), id) <==> id.addr !in q.waiting
  {
    var r := Cancel(q, id);
    if id in q.active {
      assert IdOf(q, id.addr) == id;
      assert Dead(r, id);
    } else if id.addr in q.waiting {
      assert r.heap == q.heap && r.batch == q.batch;
      forall i | 0 <= i < |r.batch| ensures r.batch[i].addr != id.addr { assert BatchOk(q, q.batch[i]); }
    } else {
      assert InBatch(q, id.addr);
      var i :| 0 <= i < |q.batch| && q.batch[i].addr == id.addr;
      assert r.batch[i].addr == id.addr;
    }
  }

  lemma {:induction false} RunsConcat(q: Queue, r1: seq<Action>, r2: seq<Action>)
    requires Possible(q, r1) && Possible(Exec(q, r1), r2)
    ensures Possible(q, r1 + r2) && Exec(q, r1 + r2) == Exec(Exec(q, r1), r2)
    ensures Called(q, r1 + r2) == Called(q, r1) + Called(Exec(q, r1), r2)
    decreases |r1|
  {
    hide Step, Enabled, CalledIn;
    if r1 == [] {
      assert r1 + r2 == r2;
    } else {
      RunsConcat(Step(q, r1[0]), r1[1..], r2);
      assert (r1 + r2)[1..] == r1[1..] + r2;
    }
  }

  lemma FirstStep(q: Queue, act: Action, rest: seq<Action>)
    requires Enabled(q, act) && Possible(Step(q, act), rest)
    ensures Possible(q, [act] + rest) && Exec(q, [act] + rest) == Exec(Step(q, act), rest)
    ensures Called(q, [act] + rest) == CalledIn(q, act) + Called(Step(q, act), rest)
  {
    hide Step, Enabled, CalledIn;
    assert ([act] + rest)[1..] == rest;
  }

  lemma NoSteps(q: Queue)
    ensures Possible(q, []) && Exec(q, []) == q && Called(q, []) == []
  {
  }

  /** Calling on, the k-th timer of the batch has its turn. */
  lemma {:induction false} ReachesTurn(q: Queue, k: nat) returns (run: seq<Action>)
    requires Inv(q) && q.calling && q.started <= k < |q.batch|
    ensures q.batch[k].addr in q.heap && Possible(q, run) && IdOf(q, q.batch[k].addr) in Called(q, run)
    decreases k - q.started
  {
    assert BatchOk(q, q.batch[q.started]) && BatchOk(q, q.batch[k]);
    var q1 := Step(q, Callback);
    StepInv(q, Callback);
    hide Inv, Step;
    if q.started == k {
      run := [];
      NoSteps(q1);
    } else {
      run := ReachesTurn(q1, k);
    }
    FirstStep(q, Callback, run);
    run := [Callback] + run;
  }

  /** The batch can be brought to its end, which leaves timers not yet added alone. */
  lemma {:induction false} ReachesEnd(q: Queue, id: Id) returns (run: seq<Action>)
    requires Inv(q) && q.calling && Names(q, id) && id.addr in q.waiting
    ensures Possible(q, run) && Inv(Exec(q, run)) && !Exec(q, run).calling
    ensures Names(Exec(q, run), id) && id.addr in Exec(q, run).waiting
    decreases |q.batch| - q.started
  {
    if q.started == |q.batch| {
      run := [];
      var q1 := Step(q, End(0));
      StepInv(q, End(0));
      EndKeepsWaiting(q, id);
      NoSteps(q1);
      FirstStep(q, End(0), run);
      run := [End(0)] + run;
    } else {
      assert BatchOk(q, q.batch[q.started]);
      StepInv(q, Callback);
      run := ReachesEnd(Step(q, Callback), id);
      FirstStep(q, Callback, run);
      run := [Callback] + run;
    }
  }

  lemma EndKeepsWaiting(q: Queue, id: Id)
    requires Inv(q) && q.calling && Names(q, id) && id.addr in q.waiting
    ensures var r := FireEnd(q, 0); Names(r, id) && id.addr in r.waiting && !r.calling
  {
    var q1 := Quiet(q);
    SameButArming(q, q1);
    forall i | 0 <= i < |q1.batch| ensures q1.batch[i].addr != id.addr { assert BatchOk(q, q.batch[i]); }
    ResetAllKeeps(q1, id.addr);
    ResetAllFrame(q1);
  }

  /** Once added, a timer fires when its time has come. */
  lemma AddedFires(q: Queue, id: Id) returns (run: seq<Action>)
    requires Inv(q) && !q.calling && Names(q, id) && id.addr in q.waiting
    ensures Possible(q, run) && id in Called(q, run)
  {
    var a, when := id.addr, q.heap[id.addr].expiration;
    var now := Max(when, 1);
    var q1 := Step(q, Add(a, 0));
    StepInv(q, Add(a, 0));
    InsertedMember(q.timers, Entry(when, a), Entry(when, a));
    ListedAreLive(q1);
    var q2 := Step(q1, Begin(now));
    StepInv(q1, Begin(now));
    ExpiredExactly(q1, now, Entry(when, a));
    var k :| 0 <= k < |q2.batch| && q2.batch[k] == Entry(when, a);
    run := ReachesTurn(q2, k);
    hide Inv, Step, CalledIn;
    FirstStep(q1, Begin(now), run);
    FirstStep(q, Add(a, 0), [Begin(now)] + run);
    run := [Add(a, 0)] + ([Begin(now)] + run);
  }

  lemma ListedAreLive(q: Queue)
    requires Inv(q)
    ensures forall i | 0 <= i < |q.timers| :: q.timers[i].addr in q.heap
  {
    forall i | 0 <= i < |q.timers| ensures q.timers[i].addr in q.heap { assert EntryOk(q, q.timers[i]); }
  }

  lemma WaitingFires(q: Queue, id: Id) returns (run: seq<Action>)
    requires Inv(q) && Names(q, id) && id.addr in q.waiting
    ensures Possible(q, run) && id in Called(q, run)
  {
    hide Inv;
    if q.calling {
      var r1 := ReachesEnd(q, id);
      var r2 := AddedFires(Exec(q, r1), id);
      RunsConcat(q, r1, r2);
      run := r1 + r2;
    } else {
      run := AddedFires(q, id);
    }
  }

  /** After this, no run whatever calls the timer again. */
  ghost predicate NeverCalled(q: Queue, id: Id) {
    forall run | Possible(q, run) :: id !in Called(q, run)
  }

  /**
    Cancelling an existing timer keeps it from ever being called again exactly when
    addTimerInLoop has listed it and it is not a timer of the running batch whose
    turn has not come: that one is called once more, as GoneForever says.
  */
  lemma CancelTakesEffect(q: Queue, id: Id)
    requires Inv(q) && LoopFree(q) && Names(q, id)
    ensures NeverCalled(Cancel(q, id), id) <==> id.addr !in q.waiting && !StillDue(q, id)
    ensures Gone(Cancel(q, id), id) <==> id.addr !in q.waiting
    ensures id.addr !in q.waiting ==> (StillDue(Cancel(q, id), id) <==> StillDue(q, id))
  {
    var r := Cancel(q, id);
    StepInv(q, CancelTimer(id));
    CancelGone(q, id);
    CancelledDue(q, id);
    hide Inv, Gone, Called, Possible;
    if id.addr in q.waiting {
      CancelUnlisted(q, id);
      var run := WaitingFires(r, id);
    } else if StillDue(q, id) {
      var i :| r.started <= i < |r.batch| && r.batch[i].addr == id.addr;
      var run := ReachesTurn(r, i);
    } else {
      forall run | Possible(r, run) ensures id !in Called(r, run) {
        GoneForever(r, run, id);
      }
    }
  }

  lemma CancelUnlisted(q: Queue, id: Id)
    requires Inv(q) && Names(q, id) && id.addr in q.waiting
    ensures Names(Cancel(q, id), id) && id.addr in Cancel(q, id).waiting
  {
    assert IdOf(q, id.addr) == id;
  }

  lemma CancelledDue(q: Queue, id: Id)
    requires Inv(q) && Names(q, id)
    ensures StillDue(Cancel(q, id), id) <==> StillDue(q, id)
  {
    var r := Cancel(q, id);
    assert r.batch == q.batch && r.started == q.started && r.calling == q.calling;
    if StillDue(q, id) {
      var i :| q.started <= i < |q.batch| && q.batch[i].addr == id.addr;
      assert BatchOk(q, q.batch[i]);
      assert r.batch[i].addr == id.addr;
    }
  }

  lemma TwoEntries(x: Entry, y: Entry)
    requires Less(x, y) && x.when == y.when
    ensures Inserted([], x) == [x] && Inserted([x], y) == [x, y] && Due([x, y], x.when) == 2
  {
    assert [x][1..] == [] && Inserted([x][1..], y) == [y];
    assert [x, y][1..] == [y] && [y][1..] == [];
    assert Due([y][1..], x.when) == 0 && Due([y], x.when) == 1;
  }

  lemma EntryOrder(a: Addr, b: Addr, when: int)
    requires a < b
    ensures Less(Entry(when, a), Entry(when, b))
  {
  }

  /** Two timers set for the same time are due in one batch. */
  lemma TwoInOneBatch(a: Addr, b: Addr, when: int) returns (q: Queue)
    requires a < b && when > 0
    ensures var run := [NewTimer(a, when, 0, false), NewTimer(b, when, 0, false), Add(a, 0), Add(b, 0), Begin(when)];
      Possible(EMPTY, run) && Exec(EMPTY, run) == q && Called(EMPTY, run) == []
    ensures q.calling && q.started == 0 && q.batch == [Entry(when, a), Entry(when, b)]
    ensures Names(q, Id(a, 1)) && Names(q, Id(b, 2)) && q.active == {}
  {
    hide Possible, Called, Exec, Inserted, Due, Less;
    var ts := [Entry(when, a), Entry(when, b)];
    assert Less(ts[0], ts[1]) by { EntryOrder(a, b, when); }
    TwoEntries(ts[0], ts[1]);
    var q1 := Step(EMPTY, NewTimer(a, when, 0, false));
    var q2 := Step(q1, NewTimer(b, when, 0, false));
    var q3 := Step(q2, Add(a, 0));
    var q4 := Step(q3, Add(b, 0));
    assert q4.timers == ts && ts[..2] == ts && ts[2..] == [];
    q := Step(q4, Begin(when));
    assert Ids(q4, ts) == [Id(a, 1), Id(b, 2)];
    hide Ids;
    assert q4.active == {Id(a, 1), Id(b, 2)} && q.active == {};
    hide Step, Enabled;
    NoSteps(q);
    FirstStep(q4, Begin(when), []);
    FirstStep(q3, Add(b, 0), [Begin(when)] + []);
    var r3 := [Add(b, 0)] + ([Begin(when)] + []);
    FirstStep(q2, Add(a, 0), r3);
    FirstStep(q1, NewTimer(b, when, 0, false), [Add(a, 0)] + r3);
    var r1 := [NewTimer(b, when, 0, false)] + ([Add(a, 0)] + r3);
    FirstStep(EMPTY, NewTimer(a, when, 0, false), r1);
    assert [NewTimer(a, when, 0, false)] + r1 ==
      [NewTimer(a, when, 0, false), NewTimer(b, when, 0, false), Add(a, 0), Add(b, 0), Begin(when)];
  }

  /** A batch-mate cancelled before its turn: the first callback cancels the second timer, which still runs. */
  lemma BatchMateStillRuns(a: Addr, b: Addr, when: int)
    requires a < b && when > 0
    ensures var run := [NewTimer(a, when, 0, false), NewTimer(b, when, 0, false), Add(a, 0), Add(b, 0), Begin(when)]
                       + [Callback, CancelTimer(Id(b, 2)), Callback];
      Possible(EMPTY, run) && Called(EMPTY, run) == [Id(a, 1), Id(b, 2)]
  {
    var pre := [NewTimer(a, when, 0, false), NewTimer(b, when, 0, false), Add(a, 0), Add(b, 0), Begin(when)];
    hide Possible, Called, Exec, Inserted, Due, Ids;
    var q := TwoInOneBatch(a, b, when);
    var q1 := Step(q, Callback);
    var q2 := Step(q1, CancelTimer(Id(b, 2)));
    NoSteps(Step(q2, Callback));
    FirstStep(q2, Callback, []);
    FirstStep(q1, CancelTimer(Id(b, 2)), [Callback] + []);
    var r1 := [CancelTimer(Id(b, 2))] + ([Callback] + []);
    FirstStep(q, Callback, r1);
    assert [Callback] + r1 == [Callback, CancelTimer(Id(b, 2)), Callback];
    RunsConcat(EMPTY, pre, [Callback] + r1);
  }

  /** A cancel that comes before addTimerInLoop is forgotten, and the timer runs. */
  lemma EarlyCancelForgotten(a: Addr, when: int)
    requires when > 0
    ensures var run := [NewTimer(a, when, 0, false), CancelTimer(Id(a, 1)), Add(a, 0), Begin(when), Callback];
      Possible(EMPTY, run) && Called(EMPTY, run) == [Id(a, 1)]
  {
    var q1 := Step(EMPTY, NewTimer(a, when, 0, false));
    var q2 := Step(q1, CancelTimer(Id(a, 1)));
    var q3 := Step(q2, Add(a, 0));
    assert q3.timers == [Entry(when, a)] && q3.timers[1..] == [];
    assert Due(q3.timers[1..], when) == 0;
    var q4 := Step(q3, Begin(when));
    hide Possible, Called, Exec;
    NoSteps(Step(q4, Callback));
    FirstStep(q4, Callback, []);
    var r4 := [Callback] + [];
    FirstStep(q3, Begin(when), r4);
    var r3 := [Begin(when)] + r4;
    FirstStep(q2, Add(a, 0), r3);
    var r2 := [Add(a, 0)] + r3;
    FirstStep(q1, CancelTimer(Id(a, 1)), r2);
    var r1 := [CancelTimer(Id(a, 1))] + r2;
    FirstStep(EMPTY, NewTimer(a, when, 0, false), r1);
    assert [NewTimer(a, when, 0, false)] + r1 ==
      [NewTimer(a, when, 0, false), CancelTimer(Id(a, 1)), Add(a, 0), Begin(when), Callback];
  }

  /** Cancelling an id that names no timer changes nothing now ... */
  lemma StaleCancel(q: Queue, id: Id)
    requires Inv(q) && !Names(q, id)
    ensures Cancel(q, id) == q.(canceling := if q.calling then q.canceling + {id} else q.canceling)
  {
    assert id in q.active ==> ActiveOk(q, id);
  }

  lemma {:induction false} StaleReset(q: Queue, id: Id)
    requires !Names(q, id)
    ensures ResetAll(q.(canceling := q.canceling + {id})) == ResetAll(q).(canceling := q.canceling + {id})
    decreases |q.batch|
  {
    var q' := q.(canceling := q.canceling + {id});
    if q.batch != [] && q.batch[0].addr in q.heap {
      assert ResetOne(q') == ResetOne(q).(canceling := q.canceling + {id});
      ResetOneBatch(q);
      StaleReset(ResetOne(q), id);
    }
  }

  /** The two queues differ at most in that one has noted a cancel of id. */
  predicate SameButNoted(q: Queue, r: Queue, id: Id) {
    r == q || r == q.(canceling := q.canceling + {id})
  }

  lemma StaleStep(q: Queue, r: Queue, act: Action, id: Id)
    requires SameButNoted(q, r, id) && !Names(q, id) && Enabled(q, act)
    ensures Enabled(r, act) && SameButNoted(Step(q, act), Step(r, act), id) && CalledIn(q, act) == CalledIn(r, act)
  {
    hide Inserted, Without, FireBegin, FireEnd;
    match act
    case End(now) => StaleEnd(q, r, now, id);
    case CancelTimer(other) => assert q.canceling + {id} + {other} == q.canceling + {other} + {id};
    case Begin(now) => StaleBegin(q, r, now, id);
    case _ =>
  }

  lemma StaleEnd(q: Queue, r: Queue, now: int, id: Id)
    requires SameButNoted(q, r, id) && !Names(q, id)
    ensures SameButNoted(FireEnd(q, now), FireEnd(r, now), id)
  {
    hide ResetAll;
    StaleReset(Quiet(q), id);
    ResetAllFrame(Quiet(q));
  }

  lemma StaleBegin(q: Queue, r: Queue, now: int, id: Id)
    requires SameButNoted(q, r, id) && forall i | 0 <= i < |q.timers| :: q.timers[i].addr in q.heap
    ensures FireBegin(r, now) == FireBegin(q, now)
  {
    hide Due, Ids;
    IdsSame(q, r, q.timers[..Due(q.timers, now)]);
  }

  lemma {:induction false} StaleRuns(q: Queue, r: Queue, id: Id, run: seq<Action>)
    requires Inv(q) && Dead(q, id) && SameButNoted(q, r, id) && Possible(q, run)
    ensures Possible(r, run) && SameButNoted(Exec(q, run), Exec(r, run), id) && Called(q, run) == Called(r, run)
    decreases |run|
  {
    hide Inv, Step, Enabled, CalledIn, SameButNoted;
    if run != [] {
      StaleStep(q, r, run[0], id);
      StepInv(q, run[0]);
      DeadStep(q, run[0], id);
      StaleRuns(Step(q, run[0]), Step(r, run[0]), id, run[1..]);
    }
  }

  /** ... nor ever after: every run goes the same way, even if another timer has the same address. */
  lemma StaleCancelHarmless(q: Queue, id: Id, run: seq<Action>)
    requires Inv(q) && Dead(q, id) && Possible(q, run)
    ensures var r := Cancel(q, id);
      && Possible(r, run) && Called(r, run) == Called(q, run)
      && Exec(r, run) == Exec(q, run).(canceling := Exec(r, run).canceling)
  {
    StaleCancel(q, id);
    StaleRuns(q, Cancel(q, id), id, run);
  }
}
