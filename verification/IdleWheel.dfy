/**
  Kicking out idle connections with a timing wheel: a ring of buckets of shared
  pointers, where an entry dies when the last bucket that holds it is dropped.
  examples/idleconnection/echo.cc and echo.h. An entry is named by its connection.
*/
module IdleWheel {

  type Conn = nat

  type Wheel = seq<set<Conn>>

  datatype Step = Connect(c: Conn) | Message(c: Conn) | Tick

  /** The entry is still referenced from some bucket, so that a weak pointer to it can be locked. */
  predicate Alive(w: Wheel, c: Conn) {
    exists i | 0 <= i < |w| :: c in w[i]
  }

  function InsertLast(w: Wheel, c: Conn): Wheel
    requires |w| > 0
  {
    w[|w| - 1 := w[|w| - 1] + {c}]
  }

  /** push_back(Bucket()) on a full ring drops the bucket in front. */
  function Rotate(w: Wheel): Wheel
    requires |w| > 0
  {
    w[1..] + [{}]
  }

  function Next(w: Wheel, step: Step): Wheel
    requires |w| > 0
  {
    match step
    case Connect(c) => InsertLast(w, c)
    case Message(c) => if Alive(w, c) then InsertLast(w, c) else w
    case Tick => Rotate(w)
  }

  /** The entries whose destructor a turn of the wheel runs. */
  function Destroyed(w: Wheel): set<Conn>
    requires |w| > 0
  {
    set c | c in w[0] && !Alive(Rotate(w), c)
  }

  // ---------------------------------------------------------------- last-activity times

  /** The number of turns so far, and for every live entry the number at its last activity. */
  datatype Clock = Clock(ticks: nat, last: map<Conn, nat>)

  function NextClock(n: nat, k: Clock, step: Step): Clock {
    match step
    case Connect(c) => k.(last := k.last[c := k.ticks])
    case Message(c) => if c in k.last then k.(last := k.last[c := k.ticks]) else k
    case Tick => Clock(k.ticks + 1, map c | c in k.last && k.last[c] + n > k.ticks + 1 :: k.last[c])
  }

  function Run(n: nat, steps: seq<Step>): (w: Wheel)
    requires n > 0
    ensures |w| == n
  {
    if steps == [] then seq(n, _ => {}) else Next(Run(n, steps[..|steps| - 1]), steps[|steps| - 1])
  }

  function RunClock(n: nat, steps: seq<Step>): Clock {
    if steps == [] then Clock(0, map[]) else NextClock(n, RunClock(n, steps[..|steps| - 1]), steps[|steps| - 1])
  }

  /** The newest bucket holding a live entry is the one of its last activity; nobody else is in any bucket. */
  ghost predicate Agree(n: nat, w: Wheel, k: Clock) {
    && |w| == n > 0
    && (forall c | c in k.last :: k.last[c] <= k.ticks < k.last[c] + n && c in w[n - 1 - (k.ticks - k.last[c])])
    && (forall i: nat, c | i < n && c in w[i] :: c in k.last && i + k.ticks - k.last[c] <= n - 1)
  }

  lemma AliveIffKnown(n: nat, w: Wheel, k: Clock, c: Conn)
    requires Agree(n, w, k)
    ensures Alive(w, c) <==> c in k.last
  {
    if c in k.last {
      assert c in w[n - 1 - (k.ticks - k.last[c])];
    }
  }

  lemma InsertAgrees(n: nat, w: Wheel, k: Clock, c: Conn)
    requires Agree(n, w, k)
    ensures Agree(n, InsertLast(w, c), k.(last := k.last[c := k.ticks]))
  {
    var w', k' := InsertLast(w, c), k.(last := k.last[c := k.ticks]);
    forall d | d in k'.last
      ensures k'.last[d] <= k'.ticks < k'.last[d] + n && d in w'[n - 1 - (k'.ticks - k'.last[d])]
    {
    }
    forall i: nat, d | i < n && d in w'[i]
      ensures d in k'.last && i + k'.ticks - k'.last[d] <= n - 1
    {
      assert (i == n - 1 && d == c) || d in w[i];
    }
  }

  lemma RotateAgrees(n: nat, w: Wheel, k: Clock)
    requires Agree(n, w, k)
    ensures Agree(n, Rotate(w), NextClock(n, k, Tick))
  {
    var w', k' := Rotate(w), NextClock(n, k, Tick);
    forall c | c in k'.last
      ensures k'.last[c] <= k'.ticks < k'.last[c] + n && c in w'[n - 1 - (k'.ticks - k'.last[c])]
    {
      assert c in w[n - 1 - (k.ticks - k.last[c])];
    }
    forall i: nat, c | i < n && c in w'[i]
      ensures c in k'.last && i + k'.ticks - k'.last[c] <= n - 1
    {
      assert c in w[i + 1];
    }
  }

  /** In every run the wheel and the last-activity times tell the same. */
  lemma {:induction false} WheelIsClock(n: nat, steps: seq<Step>)
    requires n > 0
    ensures Agree(n, Run(n, steps), RunClock(n, steps))
  {
    if steps != [] {
      var m := |steps| - 1;
      WheelIsClock(n, steps[..m]);
      var w, k := Run(n, steps[..m]), RunClock(n, steps[..m]);
      hide Agree, Alive;
      match steps[m]
      case Connect(c) => InsertAgrees(n, w, k, c);
      case Message(c) =>
        AliveIffKnown(n, w, k, c);
        if c in k.last {
          InsertAgrees(n, w, k, c);
        }
      case Tick => RotateAgrees(n, w, k);
    }
  }

  /** A turn destroys exactly the entries whose last activity is n turns ago with this one. */
  lemma DestroyedOnTime(n: nat, steps: seq<Step>)
    requires n > 0
    ensures var k := RunClock(n, steps);
      Destroyed(Run(n, steps)) == set c | c in k.last && k.ticks + 1 == k.last[c] + n
  {
    hide Run, RunClock;
    WheelIsClock(n, steps);
    var w, k := Run(n, steps), RunClock(n, steps);
    RotateAgrees(n, w, k);
    forall c: Conn
      ensures c in Destroyed(w) <==> c in k.last && k.ticks + 1 == k.last[c] + n
    {
      AliveIffKnown(n, Rotate(w), NextClock(n, k, Tick), c);
    }
  }

  // ---------------------------------------------------------------- in terms of the events alone

  function Ticks(steps: seq<Step>): nat {
    if steps == [] then 0 else Ticks(steps[..|steps| - 1]) + if steps[|steps| - 1].Tick? then 1 else 0
  }

  predicate Concerns(step: Step, c: Conn) {
    !step.Tick? && step.c == c
  }

  /** Nothing of c happens in these steps. */
  predicate Quiet(steps: seq<Step>, c: Conn) {
    forall i | 0 <= i < |steps| :: !Concerns(steps[i], c)
  }

  lemma {:induction false} TurnsCounted(n: nat, steps: seq<Step>)
    ensures RunClock(n, steps).ticks == Ticks(steps)
  {
    if steps != [] {
      TurnsCounted(n, steps[..|steps| - 1]);
    }
  }

  /** The clock of a quiet connection is only let go when its time is up. */
  lemma {:induction false} QuietClock(n: nat, before: seq<Step>, after: seq<Step>, c: Conn)
    requires c in RunClock(n, before).last && RunClock(n, before).last[c] == RunClock(n, before).ticks
    requires Quiet(after, c) && n > 0
    ensures var k0, k := RunClock(n, before), RunClock(n, before + after);
      && k.ticks == k0.ticks + Ticks(after)
      && (c in k.last <==> Ticks(after) < n) && (c in k.last ==> k.last[c] == k0.ticks)
    decreases |after|
  {
    if after == [] {
      assert before + after == before;
    } else {
      var m := |after| - 1;
      QuietClock(n, before, after[..m], c);
      assert (before + after)[..|before| + m] == before + after[..m];
      assert (before + after)[|before| + m] == after[m];
      assert !Concerns(after[m], c);
    }
  }

  /**
    After a connection's last activity, with its entry alive then, the entry lives
    through fewer than n turns and dies at the n-th, however often it was active
    before and whatever other connections do.
  */
  lemma LivesExactlyIdleSeconds(n: nat, before: seq<Step>, act: Step, after: seq<Step>)
    requires n > 0 && !act.Tick? && (act.Connect? || Alive(Run(n, before), act.c)) && Quiet(after, act.c)
    ensures Alive(Run(n, before + [act] + after), act.c) <==> Ticks(after) < n
    ensures act.c in Destroyed(Run(n, before + [act] + after)) <==> Ticks(after) == n - 1
  {
    hide Run, Alive, Destroyed, Agree, Ticks;
    var c, b, k0 := act.c, before + [act], RunClock(n, before);
    WheelIsClock(n, before);
    AliveIffKnown(n, Run(n, before), k0, c);
    assert b[..|before|] == before;
    assert RunClock(n, b) == k0.(last := k0.last[c := k0.ticks]);
    QuietClock(n, b, after, c);
    hide RunClock;
    WheelIsClock(n, b + after);
    AliveIffKnown(n, Run(n, b + after), RunClock(n, b + after), c);
    DestroyedOnTime(n, b + after);
  }

  /** A message that comes after the entry is gone does not bring it back. */
  lemma TooLate(n: nat, steps: seq<Step>, c: Conn)
    requires n > 0 && !Alive(Run(n, steps), c)
    ensures Run(n, steps + [Message(c)]) == Run(n, steps)
  {
    assert (steps + [Message(c)])[..|steps|] == steps;
  }

  // ---------------------------------------------------------------- the server

  class EchoServer {
    var buckets: Wheel
    ghost const idleSeconds: nat
    ghost var past: seq<Step>

    ghost predicate Valid()
      reads this
    {
      idleSeconds > 0 && buckets == Run(idleSeconds, past)
    }

    constructor (idle: nat)
      requires idle > 0
      ensures Valid() && idleSeconds == idle && past == []
    {
      buckets := seq(idle, _ => {});
      idleSeconds, past := idle, [];
    }

    method OnConnection(c: Conn, connected: bool)
      requires Valid()
      modifies this
      ensures Valid() && past == if connected then old(past) + [Connect(c)] else old(past)
    {
      if connected {
        assert (past + [Connect(c)])[..|past|] == past;
        buckets := InsertLast(buckets, c);
        past := past + [Connect(c)];
      }
    }

    method OnMessage(c: Conn)
      requires Valid()
      modifies this
      ensures Valid() && past == old(past) + [Message(c)]
    {
      assert (past + [Message(c)])[..|past|] == past;
      if Alive(buckets, c) {
        buckets := InsertLast(buckets, c);
      }
      past := past + [Message(c)];
    }

    /** Returns the connections shut down: those of the entries destroyed that are still open. */
    method OnTimer(open: set<Conn>) returns (shut: set<Conn>)
      requires Valid()
      modifies this
      ensures Valid() && past == old(past) + [Tick]
      ensures var k := RunClock(idleSeconds, old(past));
        shut == set c | c in k.last && k.ticks + 1 == k.last[c] + idleSeconds && c in open
    {
      DestroyedOnTime(idleSeconds, past);
      assert (past + [Tick])[..|past|] == past;
      shut := set c | c in Destroyed(buckets) && c in open;
      buckets := Rotate(buckets);
      past := past + [Tick];
    }
  }
}
