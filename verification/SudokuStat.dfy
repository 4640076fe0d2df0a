/**
  The statistics of the sudoku server: requests and latency per second over the
  last 60 seconds, kept in two ring buffers. examples/sudoku/stat.h.
*/
module SudokuStat {

  const SECONDS: nat := 60
  const MICROS_PER_SECOND: int := 1_000_000

  /** A response, by the second it was recorded in and the microseconds it took. */
  datatype Response = Response(second: int, elapsed: int, solved: bool)

  // ---------------------------------------------------------------- the recount

  /** How many responses with a sensible latency fell into second s. */
  function Count(h: seq<Response>, s: int): nat {
    if h == [] then 0 else
      var r := h[|h| - 1];
      Count(h[..|h| - 1], s) + if r.elapsed >= 0 && r.second == s then 1 else 0
  }

  /** What they took together. */
  function LatencySum(h: seq<Response>, s: int): nat {
    if h == [] then 0 else
      var r := h[|h| - 1];
      LatencySum(h[..|h| - 1], s) + if r.elapsed >= 0 && r.second == s then r.elapsed else 0
  }

  datatype Totals = Totals(responses: nat, solved: nat, bad: nat, latency: nat)

  function TotalsOf(h: seq<Response>): Totals {
    if h == [] then Totals(0, 0, 0, 0) else
      var r := h[|h| - 1];
      var t := TotalsOf(h[..|h| - 1]);
      Totals(t.responses + 1, t.solved + (if r.solved then 1 else 0), t.bad + (if r.elapsed < 0 then 1 else 0),
        t.latency + (if r.elapsed < 0 then 0 else r.elapsed))
  }

  /** How many responses satisfy p. */
  ghost function Number(h: seq<Response>, p: Response -> bool): nat {
    |set i | 0 <= i < |h| && p(h[i])|
  }

  lemma NumberSnoc(h: seq<Response>, p: Response -> bool)
    requires h != []
    ensures Number(h, p) == Number(h[..|h| - 1], p) + (if p(h[|h| - 1]) then 1 else 0)
  {
    var n := |h| - 1;
    var pre := h[..n];
    var a, a' := set i | 0 <= i < n && p(pre[i]), set i | 0 <= i < |h| && p(h[i]);
    assert a' == a + (if p(h[n]) then {n} else {});
  }

  /** The counts are what they are called: numbers of responses. */
  lemma {:induction false} CountsAre(h: seq<Response>, s: int)
    ensures Count(h, s) == Number(h, (r: Response) => r.elapsed >= 0 && r.second == s)
    ensures TotalsOf(h).responses == |h| && TotalsOf(h).solved == Number(h, (r: Response) => r.solved)
    ensures TotalsOf(h).bad == Number(h, (r: Response) => r.elapsed < 0)
  {
    hide Number;
    if h == [] {
      NoneCounted((r: Response) => r.elapsed >= 0 && r.second == s);
      NoneCounted((r: Response) => r.solved);
      NoneCounted((r: Response) => r.elapsed < 0);
    } else {
      CountsAre(h[..|h| - 1], s);
      NumberSnoc(h, (r: Response) => r.elapsed >= 0 && r.second == s);
      NumberSnoc(h, (r: Response) => r.solved);
      NumberSnoc(h, (r: Response) => r.elapsed < 0);
    }
  }

  lemma NoneCounted(p: Response -> bool)
    ensures Number([], p) == 0
  {
  }

  // ---------------------------------------------------------------- the window

  /** The seconds the window covers; first > last when there is none yet. */
  datatype Span = Span(first: int, last: int)

  predicate Covers(w: Span, s: int) {
    w.first <= s <= w.last
  }

  /** The window moves forward to a later second, dropping what is 60 seconds old or, past a gap, everything. */
  function Advance(w: Span, s: int): Span {
    if s <= w.last then w
    else if w.last == 0 || s >= w.last + SECONDS then Span(s, s)
    else Span(if w.first < s - SECONDS + 1 then s - SECONDS + 1 else w.first, s)
  }

  function SpanOf(h: seq<Response>): Span {
    if h == [] then Span(1, 0) else
      var r := h[|h| - 1];
      var w := SpanOf(h[..|h| - 1]);
      if r.elapsed < 0 then w else Advance(w, r.second)
  }

  predicate Positive(h: seq<Response>) {
    forall i | 0 <= i < |h| :: h[i].second > 0
  }

  /** The window is at most 60 seconds long, ends at the latest second seen, and is empty only at the start. */
  lemma {:induction false} SpanShape(h: seq<Response>)
    requires Positive(h)
    ensures var w := SpanOf(h);
      && 0 <= w.last - w.first + 1 <= SECONDS && w.first > 0
      && (w.last == 0 <==> w.first > w.last)
      && (forall i | 0 <= i < |h| && h[i].elapsed >= 0 :: 0 < h[i].second <= w.last)
      && (w.last > 0 ==> exists i | 0 <= i < |h| :: h[i].elapsed >= 0 && h[i].second == w.last)
  {
    if h != [] {
      var n := |h| - 1;
      SpanShape(h[..n]);
      var w, w0 := SpanOf(h), SpanOf(h[..n]);
      forall i | 0 <= i < |h| && h[i].elapsed >= 0
        ensures 0 < h[i].second <= w.last
      {
        assert i < n ==> h[..n][i] == h[i];
      }
      if w.last > 0 && w.last == w0.last {
        var i :| 0 <= i < n && h[..n][i].elapsed >= 0 && h[..n][i].second == w0.last;
        assert h[i].elapsed >= 0 && h[i].second == w.last;
      } else if w.last > 0 {
        assert h[n].elapsed >= 0 && h[n].second == w.last;
      }
    }
  }

  /** Whatever the clock does, the oldest second in the window never moves back. */
  lemma {:induction false} OldestNeverMovesBack(h: seq<Response>, n: nat)
    requires Positive(h) && n <= |h|
    ensures SpanOf(h[..n]).first <= SpanOf(h).first && SpanOf(h[..n]).last <= SpanOf(h).last
    decreases |h|
  {
    if n < |h| {
      var k := |h| - 1;
      OldestNeverMovesBack(h[..k], n);
      assert h[..k][..n] == h[..n];
      SpanShape(h[..k]);
    } else {
      assert h[..n] == h;
    }
  }

  /** A counted response at least 60 seconds after every one before it, or the first: the window starts afresh. */
  predicate Restarts(h: seq<Response>, g: nat) {
    && g < |h| && h[g].elapsed >= 0
    && forall i | 0 <= i < g && h[i].elapsed >= 0 :: h[i].second + 60 <= h[g].second
  }

  ghost predicate LastRestart(h: seq<Response>, g: nat) {
    Restarts(h, g) && forall j: nat | g < j < |h| :: !Restarts(h, j)
  }

  lemma RestartsBefore(h: seq<Response>, g: nat)
    requires h != [] && g < |h| - 1
    ensures Restarts(h, g) <==> Restarts(h[..|h| - 1], g)
  {
    var pre := h[..|h| - 1];
    assert forall i | 0 <= i <= g :: pre[i] == h[i];
  }

  /** The last response starts the window afresh just when it is the first counted or 60 seconds past the latest. */
  lemma RestartsNow(h: seq<Response>)
    requires h != [] && Positive(h)
    ensures var n := |h| - 1;
      var w := SpanOf(h[..n]);
      Restarts(h, n) <==> h[n].elapsed >= 0 && (w.last == 0 || w.last + 60 <= h[n].second)
  {
    var n := |h| - 1;
    var pre := h[..n];
    SpanShape(pre);
    hide SpanOf;
    assert forall i | 0 <= i < n :: pre[i] == h[i];
    var w := SpanOf(pre);
    if w.last > 0 {
      var i :| 0 <= i < n && pre[i].elapsed >= 0 && pre[i].second == w.last;
      assert h[i].elapsed >= 0 && h[i].second == w.last;
    }
  }

  /**
    The window reaches back to where it last started afresh, or over exactly the
    last 60 seconds if that is longer ago.
  */
  lemma {:induction false} WindowReachesBack(h: seq<Response>) returns (g: nat)
    requires Positive(h) && SpanOf(h).last > 0
    ensures LastRestart(h, g)
    ensures SpanOf(h).first == if h[g].second < SpanOf(h).last - 59 then SpanOf(h).last - 59 else h[g].second
    decreases |h|
  {
    var n: nat := |h| - 1;
    var pre := h[..n];
    var w := SpanOf(pre);
    SpanShape(pre);
    RestartsNow(h);
    if Restarts(h, n) {
      g := n;
    } else {
      g := WindowReachesBack(pre);
      RestartsBefore(h, g);
      forall j: nat | g < j < |h|
        ensures !Restarts(h, j)
      {
        if j < n {
          RestartsBefore(h, j);
        }
      }
    }
  }

  /** A second after the window has no responses yet. */
  lemma {:induction false} NothingAhead(h: seq<Response>, s: int)
    requires forall i | 0 <= i < |h| && h[i].elapsed >= 0 :: h[i].second < s
    ensures Count(h, s) == 0 && LatencySum(h, s) == 0
  {
    if h != [] {
      NothingAhead(h[..|h| - 1], s);
    }
  }

  lemma Snoc(h: seq<Response>, r: Response)
    ensures (h + [r])[..|h|] == h
    ensures SpanOf(h + [r]) == if r.elapsed < 0 then SpanOf(h) else Advance(SpanOf(h), r.second)
  {
    assert (h + [r])[..|h|] == h;
  }

  lemma TotalsSnoc(h: seq<Response>, r: Response)
    ensures var t := TotalsOf(h);
      TotalsOf(h + [r]) == Totals(t.responses + 1, t.solved + (if r.solved then 1 else 0),
        t.bad + (if r.elapsed < 0 then 1 else 0), t.latency + (if r.elapsed < 0 then 0 else r.elapsed))
  {
    assert (h + [r])[..|h|] == h;
  }

  // ---------------------------------------------------------------- the rings

  /** circular_buffer::push_back with capacity 60. */
  function PushBack(s: seq<nat>, x: nat): (r: seq<nat>)
    requires |s| <= SECONDS
    ensures |r| <= SECONDS
  {
    if |s| < SECONDS then s + [x] else s[1..] + [x]
  }

  /** Both rings, as the recount has them for the seconds of w. */
  ghost predicate Recounted(requests: seq<nat>, latencies: seq<nat>, w: Span, h: seq<Response>) {
    && |requests| == |latencies| == w.last - w.first + 1
    && (forall i: nat | i < |requests| :: requests[i] == Count(h, w.first + i))
    && (forall i: nat | i < |latencies| :: latencies[i] == LatencySum(h, w.first + i))
  }

  /** A new, empty slot at the end is right for a second nothing has been seen of. */
  lemma PushRecounted(requests: seq<nat>, latencies: seq<nat>, w: Span, h: seq<Response>)
    requires Recounted(requests, latencies, w, h) && |requests| <= SECONDS
    requires forall i | 0 <= i < |h| && h[i].elapsed >= 0 :: h[i].second <= w.last
    ensures Recounted(PushBack(requests, 0), PushBack(latencies, 0),
      Span(if |requests| < SECONDS then w.first else w.first + 1, w.last + 1), h)
  {
    NothingAhead(h, w.last + 1);
    var off := if |requests| < SECONDS then 0 else 1;
    var w' := Span(w.first + off, w.last + 1);
    var rs, ls := PushBack(requests, 0), PushBack(latencies, 0);
    forall i: nat | i < |rs|
      ensures rs[i] == Count(h, w'.first + i) && ls[i] == LatencySum(h, w'.first + i)
    {
      if i + off < |requests| {
        assert requests[i + off] == Count(h, w.first + (i + off));
        assert latencies[i + off] == LatencySum(h, w.first + (i + off));
      }
    }
  }

  /** Adding a response to the slot of its second is what the recount of the longer history says. */
  lemma BumpRecounted(requests: seq<nat>, latencies: seq<nat>, w: Span, h: seq<Response>, r: Response)
    requires Recounted(requests, latencies, w, h) && r.elapsed >= 0 && Covers(w, r.second)
    ensures var i := r.second - w.first;
      Recounted(requests[i := requests[i] + 1], latencies[i := latencies[i] + r.elapsed], w, h + [r])
  {
    Snoc(h, r);
  }

  /** A response outside the window, or without a latency, changes no slot. */
  lemma MissRecounted(requests: seq<nat>, latencies: seq<nat>, w: Span, h: seq<Response>, r: Response)
    requires Recounted(requests, latencies, w, h) && (r.elapsed < 0 || !Covers(w, r.second))
    ensures Recounted(requests, latencies, w, h + [r])
  {
    Snoc(h, r);
  }

  lemma NothingYet()
    ensures SpanOf([]) == Span(1, 0) && TotalsOf([]) == Totals(0, 0, 0, 0)
    ensures Recounted([], [], SpanOf([]), [])
  {
  }

  class SudokuStat {
    var lastSecond: int
    var requests: seq<nat>
    var latencies: seq<nat>
    var totals: Totals
    /** Every response since the last reset. */
    ghost var history: seq<Response>

    ghost predicate Valid()
      reads this
    {
      && Positive(history)
      && lastSecond == SpanOf(history).last
      && Recounted(requests, latencies, SpanOf(history), history)
      && totals == TotalsOf(history)
    }

    constructor ()
      ensures Valid() && history == []
    {
      hide Recounted, SpanOf, TotalsOf;
      NothingYet();
      lastSecond, requests, latencies, totals, history := 0, [], [], Totals(0, 0, 0, 0), [];
    }

    method Reset()
      modifies this
      ensures Valid() && history == []
    {
      hide Recounted, SpanOf, TotalsOf;
      NothingYet();
      lastSecond, requests, latencies, totals, history := 0, [], [], Totals(0, 0, 0, 0), [];
    }

    method PushSlot()
      requires |requests| <= SECONDS && |latencies| <= SECONDS
      modifies this`requests, this`latencies
      ensures requests == PushBack(old(requests), 0) && latencies == PushBack(old(latencies), 0)
    {
      requests, latencies := PushBack(requests, 0), PushBack(latencies, 0);
    }

    method Bump(idx: nat, elapsed: nat)
      requires idx < |requests| == |latencies|
      modifies this`requests, this`latencies
      ensures requests == old(requests)[idx := old(requests[idx]) + 1]
      ensures latencies == old(latencies)[idx := old(latencies[idx]) + elapsed]
    {
      requests := requests[idx := requests[idx] + 1];
      latencies := latencies[idx := latencies[idx] + elapsed];
    }

    /** stat.h:117-138 without the final count: the window moves on to a later second. */
    method JumpAhead(second: int)
      requires Positive(history) && lastSecond == SpanOf(history).last && 0 < lastSecond < second
      requires Recounted(requests, latencies, SpanOf(history), history)
      modifies this`lastSecond, this`requests, this`latencies
      ensures lastSecond == second && Recounted(requests, latencies, Advance(SpanOf(history), second), history)
    {
      SpanShape(history);
      ghost var w := SpanOf(history);
      if second < lastSecond + SECONDS {
        while lastSecond < second
          invariant SpanOf(history).last <= lastSecond <= second && w == Advance(SpanOf(history), lastSecond)
          invariant Recounted(requests, latencies, w, history)
        {
          PushRecounted(requests, latencies, w, history);
          PushSlot();
          lastSecond := lastSecond + 1;
          w := Advance(SpanOf(history), lastSecond);
        }
      } else {
        requests, latencies := [], [];
        lastSecond := second;
        PushRecounted([], [], Span(second, second - 1), history);
        PushSlot();
      }
    }

    /** stat.h:85-160, called with the clock past the first second. */
    method RecordResponse(now: int, receive: int, solved: bool)
      requires Valid() && now >= MICROS_PER_SECOND
      modifies this
      ensures Valid()
      ensures history == old(history) + [Response(now / MICROS_PER_SECOND, now - receive, solved)]
    {
      hide Count, LatencySum, SpanOf, Recounted, TotalsOf;
      var second, elapsed := now / MICROS_PER_SECOND, now - receive;
      ghost var r := Response(second, elapsed, solved);
      Snoc(history, r);
      TotalsSnoc(history, r);
      totals := totals.(responses := totals.responses + 1);
      if solved {
        totals := totals.(solved := totals.solved + 1);
      }
      if elapsed < 0 {
        totals := totals.(bad := totals.bad + 1);
        MissRecounted(requests, latencies, SpanOf(history), history, r);
        history := history + [r];
        return;
      }
      totals := totals.(latency := totals.latency + elapsed);
      Place(second, elapsed, solved);
      history := history + [r];
    }

    /** stat.h:101-158: find or make the slot, and count. */
    method Place(second: int, elapsed: nat, ghost solved: bool)
      requires Positive(history) && lastSecond == SpanOf(history).last && second > 0
      requires Recounted(requests, latencies, SpanOf(history), history)
      modifies this`lastSecond, this`requests, this`latencies
      ensures var h := history + [Response(second, elapsed, solved)];
        lastSecond == SpanOf(h).last && Recounted(requests, latencies, SpanOf(h), h)
    {
      hide Count, LatencySum, SpanOf;
      ghost var r, w := Response(second, elapsed, solved), SpanOf(history);
      Snoc(history, r);
      SpanShape(history);
      var firstSecond := lastSecond - |requests| + 1;
      if lastSecond == second {
        BumpRecounted(requests, latencies, w, history, r);
        Bump(|requests| - 1, elapsed);
      } else if lastSecond + 1 == second || lastSecond == 0 {
        PushRecounted(requests, latencies, if lastSecond == 0 then Span(second, second - 1) else w, history);
        lastSecond := second;
        PushSlot();
        BumpRecounted(requests, latencies, Advance(w, second), history, r);
        Bump(|requests| - 1, elapsed);
      } else if second > lastSecond {
        JumpAhead(second);
        BumpRecounted(requests, latencies, Advance(w, second), history, r);
        Bump(|requests| - 1, elapsed);
      } else if second >= firstSecond {
        BumpRecounted(requests, latencies, w, history, r);
        Bump(second - firstSecond, elapsed);
      } else {
        MissRecounted(requests, latencies, w, history, r);
      }
    }
  }
}
