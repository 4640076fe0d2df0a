/**
  The TimerQueue object of muduo/net/TimerQueue.cc.  Its methods search, insert
  and erase step by step; each does to the fields what the step of the same name
  in Timers does to the value.
*/
module TimerQueue {
  import opened Options
  import opened Timers

  /** std::set::insert: past every entry that is not greater. */
  method InsertEntry(ts: seq<Entry>, e: Entry) returns (r: seq<Entry>)
    ensures r == Inserted(ts, e)
  {
    hide Less, Inserted;
    var i := 0;
    while i < |ts| && !Less(e, ts[i])
      invariant 0 <= i <= |ts|
      invariant Inserted(ts, e) == ts[..i] + Inserted(ts[i..], e)
    {
      InsertedLater(ts, e, i);
      i := i + 1;
    }
    InsertedHere(ts[i..], e);
    r := ts[..i] + ([e] + ts[i..]);
  }

  lemma InsertedLater(ts: seq<Entry>, e: Entry, i: nat)
    requires i < |ts| && !Less(e, ts[i])
    ensures ts[..i] + Inserted(ts[i..], e) == ts[..i + 1] + Inserted(ts[i + 1..], e)
  {
    hide Less;
    assert ts[i..][1..] == ts[i + 1..];
    assert ts[..i] + [ts[i]] == ts[..i + 1];
    assert ts[..i] + ([ts[i]] + Inserted(ts[i + 1..], e)) == ts[..i] + [ts[i]] + Inserted(ts[i + 1..], e);
  }

  lemma InsertedHere(ts: seq<Entry>, e: Entry)
    requires ts == [] || Less(e, ts[0])
    ensures Inserted(ts, e) == [e] + ts
  {
  }

  /** The whole microseconds of a positive number of seconds, Timestamp.h:117. */
  function Micros(seconds: real): (r: nat)
    ensures seconds > 0.0 ==> r as real <= seconds * 1000000.0 < r as real + 1.0
    ensures r > 0 ==> seconds > 0.0
  {
    if seconds > 0.0 then (seconds * 1000000.0).Floor else 0
  }

  class TimerQueue {
    var heap: map<Addr, Timer>
    var waiting: set<Addr>
    var timers: seq<Entry>
    var active: set<Id>
    var calling: bool
    var canceling: set<Id>
    var expired: seq<Entry>
    var started: nat
    var now: int
    var created: nat
    var armed: Option<int>
    var armedAt: int
    var fired: bool
    ghost var runs: seq<Id>

    ghost function Abs(): Queue
      reads this
    {
      Queue(heap, waiting, timers, active, calling, canceling, expired, started, now, created, armed, armedAt, fired,
            runs)
    }

    constructor ()
      ensures Abs() == EMPTY
    {
      heap, waiting, timers, active, calling, canceling := map[], {}, [], {}, false, {};
      expired, started, now, created, armed, armedAt, fired, runs := [], 0, 0, 0, None, 0, false, [];
    }

    /** TimerQueue.cc:116-124 and Timer.h:29-35, interval in seconds; the allocator supplies the address. */
    method AddTimer(a: Addr, when: int, interval: real) returns (id: Id)
      requires a !in heap
      modifies this
      ensures Enabled(old(Abs()), NewTimer(a, when, Micros(interval), interval > 0.0))
      ensures Abs() == New(old(Abs()), a, when, Micros(interval), interval > 0.0) && id == IdOf(Abs(), a)
    {
      created := created + 1;
      heap := heap[a := Timer(when, Micros(interval), interval > 0.0, created)];
      waiting := waiting + {a};
      id := Id(a, created);
    }

    /** TimerQueue.cc:41-55 and 68-81. */
    method ResetTimerfd(expiration: int, at: int)
      modifies this`armed, this`armedAt, this`fired
      ensures Abs() == Arm(old(Abs()), expiration, at)
    {
      var microseconds := expiration - at;
      if microseconds < 100 {
        microseconds := 100;
      }
      armed, armedAt, fired := Some(at + microseconds), at, false;
    }

    /** TimerQueue.cc:235-259. */
    method InsertTimer(a: Addr) returns (earliestChanged: bool)
      requires a in heap
      modifies this`timers, this`active
      ensures Abs() == Insert(old(Abs()), a)
      ensures earliestChanged == EarliestChanges(old(Abs()), heap[a].expiration)
    {
      var when := heap[a].expiration;
      earliestChanged := |timers| == 0 || when < timers[0].when;
      hide Inserted, Less;
      timers := InsertEntry(timers, Entry(when, a));
      active := active + {Id(a, heap[a].sequence)};
    }

    /** TimerQueue.cc:132-141. */
    method AddTimerInLoop(a: Addr, at: int)
      requires a in heap && a in waiting
      modifies this
      ensures Abs() == AddInLoop(old(Abs()), a, at)
    {
      waiting := waiting - {a};
      var earliestChanged := InsertTimer(a);
      if earliestChanged {
        ResetTimerfd(heap[a].expiration, at);
      }
    }

    method EraseEntry(e: Entry)
      modifies this`timers
      ensures timers == Without(old(timers), e)
    {
      var i := 0;
      while i < |timers| && timers[i] != e
        invariant 0 <= i <= |timers|
        invariant Without(timers, e) == timers[..i] + Without(timers[i..], e)
      {
        assert timers[i..][1..] == timers[i + 1..];
        assert timers[..i] + [timers[i]] == timers[..i + 1];
        i := i + 1;
      }
      if i < |timers| {
        assert timers[i..][1..] == timers[i + 1..];
        timers := timers[..i] + timers[i + 1..];
      }
    }

    /** TimerQueue.cc:143-161. */
    method CancelInLoop(id: Id)
      requires id in active ==> id.addr in heap
      modifies this
      ensures Abs() == Cancel(old(Abs()), id)
    {
      if id in active {
        EraseEntry(Entry(heap[id.addr].expiration, id.addr));
        heap := heap - {id.addr};
        active := active - {id};
      } else if calling {
        canceling := canceling + {id};
      }
    }

    /** TimerQueue.cc:183-202. */
    method GetExpired(at: int)
      requires forall i | 0 <= i < |timers| :: timers[i].addr in heap
      modifies this`timers, this`active, this`expired
      ensures var n := Due(old(timers), at); expired == old(timers)[..n] && timers == old(timers)[n..]
      ensures active == old(active) - IdSet(Ids(old(Abs()), expired))
    {
      var n := 0;
      while n < |timers| && timers[n].when <= at
        invariant 0 <= n <= |timers| && Due(timers, at) == n + Due(timers[n..], at)
        invariant timers == old(timers) && active == old(active)
      {
        assert timers[n..][1..] == timers[n + 1..];
        n := n + 1;
      }
      expired := timers[..n];
      timers := timers[n..];
      ghost var ids := Ids(old(Abs()), expired);
      var remaining := active;
      for i := 0 to n
        invariant remaining == old(active) - IdSet(ids[..i])
        invariant expired == old(timers)[..n] && timers == old(timers)[n..]
      {
        assert ids[i] == Id(expired[i].addr, heap[expired[i].addr].sequence);
        remaining := remaining - {Id(expired[i].addr, heap[expired[i].addr].sequence)};
        IdSetSnoc(ids, i);
      }
      active := remaining;
      assert ids[..n] == ids;
    }

    /** TimerQueue.cc:163-172, up to the callbacks. */
    method HandleReadBegin(at: int)
      requires Enabled(Abs(), Begin(at))
      modifies this
      ensures Abs() == FireBegin(old(Abs()), at)
    {
      hide Due, Ids, IdSet, Consistent;
      ghost var q := Abs();
      GetExpired(at);
      now, fired := at, false;
      calling, started := true, 0;
      canceling := {};
    }

    /** TimerQueue.cc:174-177, one turn: whose callback is called. */
    method RunNext() returns (id: Id)
      requires Enabled(Abs(), Callback)
      modifies this`started, this`runs
      ensures Abs() == Call(old(Abs())) && [id] == CalledIn(old(Abs()), Callback)
    {
      var a := expired[started].addr;
      id := Id(a, heap[a].sequence);
      started := started + 1;
      runs := runs + [id];
    }

    /** TimerQueue.cc:208-222 for the first timer of the batch. */
    method ResetFirst()
      requires |expired| > 0 && expired[0].addr in heap
      modifies this
      ensures Abs() == ResetOne(old(Abs()))
    {
      var a := expired[0].addr;
      var t := heap[a];
      expired := expired[1..];
      if t.repeat && Id(a, t.sequence) !in canceling {
        heap := heap[a := t.(expiration := now + t.interval)];
        var _ := InsertTimer(a);
      } else {
        heap := heap - {a};
      }
    }

    /** TimerQueue.cc:178-233: the callbacks have returned. */
    method HandleReadEnd(at: int)
      requires Consistent(Abs())
      modifies this
      ensures Abs() == FireEnd(old(Abs()), at)
    {
      hide Consistent, ResetOne;
      ghost var start := Quiet(Abs());
      SameButArming(Abs(), start);
      calling, started := false, 0;
      while |expired| > 0
        invariant Consistent(Abs()) && ResetAll(Abs()) == ResetAll(start)
        decreases |expired|
      {
        ResetOneConsistent(Abs());
        ResetOneBatch(Abs());
        ResetFirst();
      }
      if |timers| > 0 {
        var nextExpire := timers[0].when;
        if nextExpire > 0 {
          ResetTimerfd(nextExpire, at);
        }
      }
    }
  }
}
