/**
  What a connection does to its bytes, tasks, notices and phases, told from the
  calls and the kernel's answers alone (muduo/net/TcpConnection.cc).
*/
module ConnectionLaws {
  import opened Buffer
  import opened Connection
  import opened Options

  // ---------------------------------------------------------------- bytes

  /** The message that reaches sendInLoop() in this call. */
  function Sent(c: Conn, call: Call): Option<seq<Byte>> {
    match call
    case Send(msg, inLoop, _) => if c.phase == Connected && inLoop then Some(msg) else None
    case Task(_) => if c.tasks != [] && c.tasks[0].SendTask? then Some(c.tasks[0].msg) else None
    case _ => None
  }

  /** The bytes that this call gives to write(), if it calls write(). */
  function Offered(c: Conn, call: Call): Option<seq<Byte>> {
    if call.Writable? then (if c.wantWrite then Some(c.output) else None)
    else if Sent(c, call).Some? && c.phase != Disconnected && !c.wantWrite && c.output == [] then Sent(c, call)
    else None
  }

  function Answer(call: Call): WriteResult
    requires call.Send? || call.Task? || call.Writable?
  {
    call.w
  }

  /** How many bytes the kernel says it took. */
  function Took(c: Conn, call: Call): (n: nat)
    requires Allowed(c, call)
    ensures if Offered(c, call).Some? then n <= |Offered(c, call).value| else n == 0
  {
    if Offered(c, call).Some? && Answer(call).Wrote? then Answer(call).n else 0
  }

  /** The kernel's bytes grow by exactly the first bytes offered, as many as it says, and by nothing else. */
  lemma KernelGrows(c: Conn, cfg: Config, call: Call)
    requires Allowed(c, call)
    ensures Step(c, cfg, call).kernel ==
      c.kernel + (if Offered(c, call).Some? then Offered(c, call).value[..Took(c, call)] else [])
  {
    hide SendInLoop, HandleWrite, KernelMay;
    assert c.kernel + [] == c.kernel;
    match call
    case Send(msg, inLoop, w) =>
      if c.phase == Connected && inLoop { SendKernel(c, cfg, msg, w); }
    case Writable(w) => WriteKernel(c, cfg, w);
    case Task(w) =>
      if c.tasks[0].SendTask? { SendTaskKernel(c, cfg, w); }
    case _ =>
  }

  /** Whether sendInLoop() tries write() at once. */
  predicate Direct(c: Conn) {
    c.phase != Disconnected && !c.wantWrite && c.output == []
  }

  lemma SendKernel(c: Conn, cfg: Config, msg: seq<Byte>, w: WriteResult)
    requires KernelMay(c, |msg|, w)
    ensures SendInLoop(c, cfg, msg, w).kernel == c.kernel + (if Direct(c) && w.Wrote? then msg[..w.n] else [])
    ensures Direct(c) && !w.Wrote? ==> msg[..0] == []
  {
    assert c.kernel + [] == c.kernel;
  }

  lemma SendTaskKernel(c: Conn, cfg: Config, w: WriteResult)
    requires c.tasks != [] && c.tasks[0].SendTask? && KernelMay(c, |c.tasks[0].msg|, w)
    ensures RunTask(c, cfg, w).kernel ==
      c.kernel + (if Direct(c) && w.Wrote? then c.tasks[0].msg[..w.n] else [])
  {
    hide SendInLoop;
    SendKernel(c.(tasks := c.tasks[1..]), cfg, c.tasks[0].msg, w);
  }

  lemma WriteKernel(c: Conn, cfg: Config, w: WriteResult)
    requires KernelMay(c, |c.output|, w)
    ensures HandleWrite(c, cfg, w).kernel == c.kernel + (if c.wantWrite && w.Wrote? then c.output[..w.n] else [])
    ensures c.output[..0] == []
  {
    assert c.kernel + [] == c.kernel;
  }

  /** handleWrite keeps the bytes the kernel did not take, no more and no less. */
  lemma WritableKeepsRest(c: Conn, cfg: Config, w: WriteResult)
    requires Allowed(c, Writable(w)) && c.wantWrite
    ensures Step(c, cfg, Writable(w)).output == c.output[(if w.Wrote? then w.n else 0)..]
    ensures Step(c, cfg, Writable(w)).kernel == c.kernel + c.output[..(if w.Wrote? then w.n else 0)]
  {
  }

  /** Whether sendInLoop() gives the message up: the connection is gone, or write() found the peer gone. */
  predicate Refused(c: Conn, call: Call) {
    Sent(c, call).Some? && (c.phase == Disconnected || (Offered(c, call).Some? && Answer(call) == Broken))
  }

  /** A message that is not given up is kept behind the waiting output, but for the bytes the kernel took at once. */
  lemma SendKeepsRest(c: Conn, cfg: Config, call: Call)
    requires Allowed(c, call) && Sent(c, call).Some?
    ensures Step(c, cfg, call).output ==
      if Refused(c, call) then c.output else c.output + Sent(c, call).value[Took(c, call)..]
  {
    hide SendInLoop, KernelMay;
    var msg := Sent(c, call).value;
    if call.Send? {
      SendOutput(c, cfg, msg, call.w);
    } else {
      KernelMaySame(c, c.(tasks := c.tasks[1..]), |msg|, call.w);
      SendOutput(c.(tasks := c.tasks[1..]), cfg, msg, call.w);
    }
  }

  lemma SendOutput(c: Conn, cfg: Config, msg: seq<Byte>, w: WriteResult)
    requires KernelMay(c, |msg|, w)
    ensures SendInLoop(c, cfg, msg, w).output ==
      if c.phase == Disconnected || (Direct(c) && w == Broken) then c.output
      else c.output + msg[(if Direct(c) && w.Wrote? then w.n else 0)..]
  {
    assert c.output + [] == c.output && msg[0..] == msg;
  }

  /** No other call touches the output. */
  lemma OutputElsewhere(c: Conn, cfg: Config, call: Call)
    requires Allowed(c, call) && Sent(c, call).None? && !(call.Writable? && c.wantWrite)
    ensures Step(c, cfg, call).output == c.output
  {
  }

  /** The sum of the kernel's answers. */
  function Written(c: Conn, cfg: Config, run: seq<Call>): nat
    requires Possible(c, cfg, run)
    decreases |run|
  {
    if run == [] then 0 else Took(c, run[0]) + Written(Step(c, cfg, run[0]), cfg, run[1..])
  }

  /** Over every run the kernel has as many bytes as it said it took. */
  lemma {:induction false} KernelCount(c: Conn, cfg: Config, run: seq<Call>)
    requires Possible(c, cfg, run)
    ensures |Exec(c, cfg, run).kernel| == |c.kernel| + Written(c, cfg, run)
    decreases |run|
  {
    hide Step, Allowed, Took, Offered;
    if run != [] {
      KernelGrows(c, cfg, run[0]);
      KernelCount(Step(c, cfg, run[0]), cfg, run[1..]);
    }
  }

  // ---------------------------------------------------------------- notices

  /** Whether the call leaves nothing of what write() was offered, with something written if it comes from poll. */
  predicate Finishes(c: Conn, call: Call)
    requires Allowed(c, call)
  {
    && Offered(c, call).Some? && Answer(call).Wrote? && Took(c, call) == |Offered(c, call).value|
    && (call.Writable? ==> Took(c, call) > 0)
  }

  /** Whether the call takes the output from below the mark to it or above. */
  predicate Crosses(c: Conn, cfg: Config, call: Call)
    requires Allowed(c, call)
  {
    |c.output| < cfg.highWaterMark <= |Step(c, cfg, call).output|
  }

  /** The callbacks queued for the user: write-complete when all is written, high-water when the mark is crossed. */
  lemma NoticesExactly(c: Conn, cfg: Config, call: Call)
    requires Allowed(c, call)
    ensures Step(c, cfg, call).notices == c.notices
      + (if cfg.onWriteComplete && Finishes(c, call) then [WriteComplete] else [])
      + (if cfg.onHighWater && Crosses(c, cfg, call) then [HighWater(|Step(c, cfg, call).output|)] else [])
  {
    hide SendInLoop, HandleWrite, KernelMay;
    assert c.notices + [] == c.notices;
    if Sent(c, call).Some? {
      SentNotices(c, cfg, call);
    } else if call.Writable? {
      WriteNotices(c, cfg, call.w);
    } else {
      OutputElsewhere(c, cfg, call);
    }
  }

  lemma SentNotices(c: Conn, cfg: Config, call: Call)
    requires Allowed(c, call) && Sent(c, call).Some?
    ensures var r := Step(c, cfg, call);
      r.notices == c.notices + (if cfg.onWriteComplete && Finishes(c, call) then [WriteComplete] else [])
        + (if cfg.onHighWater && |c.output| < cfg.highWaterMark <= |r.output| then [HighWater(|r.output|)] else [])
  {
    hide SendInLoop, HandleWrite, KernelMay;
    var msg := Sent(c, call).value;
    if call.Send? {
      SendNotices(c, cfg, msg, call.w);
    } else {
      KernelMaySame(c, c.(tasks := c.tasks[1..]), |msg|, call.w);
      SendNotices(c.(tasks := c.tasks[1..]), cfg, msg, call.w);
    }
  }

  lemma SendNotices(c: Conn, cfg: Config, msg: seq<Byte>, w: WriteResult)
    requires KernelMay(c, |msg|, w)
    ensures var r := SendInLoop(c, cfg, msg, w);
      r.notices == c.notices
        + (if cfg.onWriteComplete && Direct(c) && w.Wrote? && w.n == |msg| then [WriteComplete] else [])
        + (if cfg.onHighWater && |c.output| < cfg.highWaterMark <= |r.output| then [HighWater(|r.output|)] else [])
  {
    assert c.notices + [] == c.notices;
  }

  lemma WriteNotices(c: Conn, cfg: Config, w: WriteResult)
    requires KernelMay(c, |c.output|, w)
    ensures var r := HandleWrite(c, cfg, w);
      && r.notices == c.notices
           + (if cfg.onWriteComplete && c.wantWrite && w.Wrote? && 0 < w.n == |c.output| then [WriteComplete] else [])
      && |r.output| <= |c.output|
  {
    assert c.notices + [] == c.notices;
  }

  // ---------------------------------------------------------------- runs, step by step

  /** The last call of a run. */
  lemma {:induction false} LastCall(c: Conn, cfg: Config, run: seq<Call>)
    requires Possible(c, cfg, run) && run != []
    ensures var n := |run| - 1;
      && Possible(c, cfg, run[..n]) && Allowed(Exec(c, cfg, run[..n]), run[n])
      && Exec(c, cfg, run) == Step(Exec(c, cfg, run[..n]), cfg, run[n])
    decreases |run|
  {
    hide Step, Allowed;
    var n := |run| - 1;
    if n == 0 {
      assert run[..n] == [] && run[1..] == [];
    } else {
      LastCall(Step(c, cfg, run[0]), cfg, run[1..]);
      assert run[1..][..n - 1] == run[..n][1..] && run[1..][n - 1] == run[n] && run[..n][0] == run[0];
    }
  }

  lemma {:induction false} Prefixes(c: Conn, cfg: Config, run: seq<Call>, i: nat)
    requires Possible(c, cfg, run) && i <= |run|
    ensures Possible(c, cfg, run[..i])
    decreases |run|
  {
    if i == |run| {
      assert run[..i] == run;
    } else {
      LastCall(c, cfg, run);
      Prefixes(c, cfg, run[..|run| - 1], i);
      assert run[..|run| - 1][..i] == run[..i];
    }
  }

  /** The connection just before the i-th call of a run. */
  function At(cfg: Config, run: seq<Call>, i: nat): Conn
    requires Possible(NEW_CONN, cfg, run) && i < |run|
  {
    Prefixes(NEW_CONN, cfg, run, i);
    Exec(NEW_CONN, cfg, run[..i])
  }

  lemma AtPrefix(cfg: Config, run: seq<Call>, i: nat, n: nat)
    requires Possible(NEW_CONN, cfg, run) && i < n <= |run|
    ensures Possible(NEW_CONN, cfg, run[..n]) && At(cfg, run[..n], i) == At(cfg, run, i) && run[..n][i] == run[i]
  {
    Prefixes(NEW_CONN, cfg, run, n);
    assert run[..n][..i] == run[..i];
  }

  // ---------------------------------------------------------------- tasks

  /** What a call from outside the loop thread, or forceClose(), leaves for the loop to do. */
  function PostedBy(c: Conn, call: Call): seq<Task> {
    match call
    case Send(msg, inLoop, _) => if c.phase == Connected && !inLoop then [SendTask(msg)] else []
    case Shutdown(inLoop) => if c.phase == Connected && !inLoop then [ShutdownTask] else []
    case ForceClose => if c.phase == Connected || c.phase == Disconnecting then [ForceCloseTask] else []
    case _ => []
  }

  function Posted(c: Conn, cfg: Config, run: seq<Call>): seq<Task>
    requires Possible(c, cfg, run)
    decreases |run|
  {
    if run == [] then [] else PostedBy(c, run[0]) + Posted(Step(c, cfg, run[0]), cfg, run[1..])
  }

  function CountTasks(run: seq<Call>): nat {
    if run == [] then 0 else CountTasks(run[1..]) + if run[0].Task? then 1 else 0
  }

  lemma TasksStep(c: Conn, cfg: Config, call: Call)
    requires Allowed(c, call)
    ensures Step(c, cfg, call).tasks == (if call.Task? then c.tasks[1..] else c.tasks) + PostedBy(c, call)
  {
    hide SendInLoop, KernelMay;
    match call
    case Send(msg, inLoop, w) =>
      if c.phase == Connected && inLoop { SendKeeps(c, cfg, msg, w); }
    case Writable(w) => WriteKeepsPhase(c, cfg, w);
    case Task(w) =>
      if c.tasks[0].SendTask? {
        KernelMaySame(c, c.(tasks := c.tasks[1..]), |c.tasks[0].msg|, w);
        SendKeeps(c.(tasks := c.tasks[1..]), cfg, c.tasks[0].msg, w);
      }
    case _ =>
  }

  /** Tasks run first come, first served: those waiting are those posted, but for as many as have been run. */
  lemma {:induction false} TasksInOrder(c: Conn, cfg: Config, run: seq<Call>)
    requires Possible(c, cfg, run)
    ensures CountTasks(run) <= |c.tasks + Posted(c, cfg, run)|
    ensures Exec(c, cfg, run).tasks == (c.tasks + Posted(c, cfg, run))[CountTasks(run)..]
    decreases |run|
  {
    hide Step, Allowed, PostedBy;
    if run != [] {
      TasksStep(c, cfg, run[0]);
      TaskAllowed(c, run[0]);
      var c1 := Step(c, cfg, run[0]);
      TasksInOrder(c1, cfg, run[1..]);
      var front, new_, later := c.tasks, PostedBy(c, run[0]), Posted(c1, cfg, run[1..]);
      Regroup(front, new_, later);
      if run[0].Task? {
        assert c1.tasks + later == (front + (new_ + later))[1..];
      }
    }
  }

  lemma TaskAllowed(c: Conn, call: Call)
    requires Allowed(c, call)
    ensures call.Task? ==> c.tasks != []
  {
  }

  lemma Regroup(a: seq<Task>, b: seq<Task>, d: seq<Task>)
    ensures (a + b) + d == a + (b + d)
    ensures a != [] ==> (a[1..] + b) + d == (a + (b + d))[1..]
  {
  }

  // ---------------------------------------------------------------- phases

  /** The calls by which a connection is lost. */
  predicate Closes(c: Conn, call: Call) {
    match call
    case PeerClosed => true
    case Destroy => c.phase == Connected
    case Task(_) => c.tasks != [] && c.tasks[0] == ForceCloseTask && (c.phase == Connected || c.phase == Disconnecting)
    case _ => false
  }

  /** The calls after which a connection is no longer simply connected. */
  predicate Ends(call: Call) {
    call.Shutdown? || call.ForceClose? || call.PeerClosed? || call.Destroy?
  }

  /** No task that ends the connection is waiting. */
  predicate OnlySends(c: Conn) {
    forall i | 0 <= i < |c.tasks| :: c.tasks[i].SendTask?
  }

  lemma PhaseStep(c: Conn, cfg: Config, call: Call)
    requires Allowed(c, call) && TasksOk(c) && (c.phase == Connected ==> OnlySends(c))
    ensures var r := Step(c, cfg, call);
      && (r.phase == Connecting <==> c.phase == Connecting && !call.Establish?)
      && (r.phase == Disconnected <==> c.phase == Disconnected || Closes(c, call))
      && (r.phase == Connected <==> call.Establish? || (c.phase == Connected && !Ends(call)))
      && (r.phase == Connected ==> OnlySends(r))
  {
    hide SendInLoop, KernelMay;
    TasksStep(c, cfg, call);
    match call
    case Send(msg, inLoop, w) =>
      if c.phase == Connected && inLoop { SendKeeps(c, cfg, msg, w); }
    case Writable(w) => WriteKeepsPhase(c, cfg, w);
    case Task(w) =>
      if c.tasks[0].SendTask? {
        KernelMaySame(c, c.(tasks := c.tasks[1..]), |c.tasks[0].msg|, w);
        SendKeeps(c.(tasks := c.tasks[1..]), cfg, c.tasks[0].msg, w);
      }
    case _ =>
  }

  ghost predicate Established(run: seq<Call>) {
    exists e :: 0 <= e < |run| && run[e].Establish?
  }

  ghost predicate Lost(cfg: Config, run: seq<Call>)
    requires Possible(NEW_CONN, cfg, run)
  {
    exists i: nat :: i < |run| && Closes(At(cfg, run, i), run[i])
  }

  /** Established, and nothing that ends the connection called since. */
  ghost predicate Untroubled(run: seq<Call>) {
    exists e :: 0 <= e < |run| && run[e].Establish? && forall j | e < j < |run| :: !Ends(run[j])
  }

  /** The phase after every run, from the calls made. */
  lemma {:induction false} PhaseIs(cfg: Config, run: seq<Call>)
    requires Possible(NEW_CONN, cfg, run)
    ensures var c := Exec(NEW_CONN, cfg, run);
      && (c.phase == Connecting <==> !Established(run))
      && (c.phase == Disconnected <==> Lost(cfg, run))
      && (c.phase == Connected <==> Untroubled(run))
      && (c.phase == Connected ==> OnlySends(c))
    decreases |run|
  {
    if run != [] {
      var n: nat := |run| - 1;
      var pre := run[..n];
      LastCall(NEW_CONN, cfg, run);
      PhaseIs(cfg, pre);
      RunInv(NEW_CONN, cfg, pre);
      var c := Exec(NEW_CONN, cfg, pre);
      PhaseStep(c, cfg, run[n]);
      hide Step, Allowed, Possible, Exec, Inv;
      LostSnoc(cfg, run);
      EstablishedSnoc(run);
      UntroubledSnoc(run);
    }
  }

  lemma LostSnoc(cfg: Config, run: seq<Call>)
    requires Possible(NEW_CONN, cfg, run) && run != []
    ensures var n := |run| - 1;
      && Possible(NEW_CONN, cfg, run[..n])
      && (Lost(cfg, run) <==> Lost(cfg, run[..n]) || Closes(Exec(NEW_CONN, cfg, run[..n]), run[n]))
  {
    var n: nat := |run| - 1;
    LastCall(NEW_CONN, cfg, run);
    hide Possible, Exec, Closes, At;
    forall i: nat | i < n
      ensures At(cfg, run[..n], i) == At(cfg, run, i) && run[..n][i] == run[i]
    {
      AtPrefix(cfg, run, i, n);
    }
    AtLast(cfg, run);
    if Lost(cfg, run[..n]) {
      var i: nat :| i < n && Closes(At(cfg, run[..n], i), run[..n][i]);
      assert Closes(At(cfg, run, i), run[i]);
    }
    if Lost(cfg, run) {
      var i: nat :| i < |run| && Closes(At(cfg, run, i), run[i]);
      if i < n {
        assert Closes(At(cfg, run[..n], i), run[..n][i]);
      }
    }
  }

  lemma AtLast(cfg: Config, run: seq<Call>)
    requires Possible(NEW_CONN, cfg, run) && run != []
    ensures Possible(NEW_CONN, cfg, run[..|run| - 1])
    ensures At(cfg, run, |run| - 1) == Exec(NEW_CONN, cfg, run[..|run| - 1])
  {
    LastCall(NEW_CONN, cfg, run);
  }

  lemma EstablishedSnoc(run: seq<Call>)
    requires run != []
    ensures var n := |run| - 1; Established(run) <==> Established(run[..n]) || run[n].Establish?
  {
    var n := |run| - 1;
    if Established(run[..n]) {
      var e :| 0 <= e < n && run[..n][e].Establish?;
      assert run[e].Establish?;
    }
    if Established(run) {
      var e :| 0 <= e < |run| && run[e].Establish?;
      assert e < n ==> run[..n][e].Establish?;
    }
  }

  lemma UntroubledSnoc(run: seq<Call>)
    requires run != []
    ensures var n := |run| - 1;
      Untroubled(run) <==> run[n].Establish? || (Untroubled(run[..n]) && !Ends(run[n]))
  {
    var n := |run| - 1;
    var pre := run[..n];
    assert forall j | 0 <= j < n :: pre[j] == run[j];
    if run[n].Establish? {
      assert forall j | n < j < |run| :: !Ends(run[j]);
    }
    if Untroubled(pre) && !Ends(run[n]) {
      var e :| 0 <= e < n && pre[e].Establish? && forall j | e < j < n :: !Ends(pre[j]);
      assert run[e].Establish? && forall j | e < j < |run| :: !Ends(run[j]);
    }
    if Untroubled(run) && !run[n].Establish? {
      var e :| 0 <= e < |run| && run[e].Establish? && forall j | e < j < |run| :: !Ends(run[j]);
      assert pre[e].Establish? && forall j | e < j < n :: !Ends(pre[j]);
    }
  }

  // ---------------------------------------------------------------- shutdown is honoured

  /** shutdown() was called on a connected connection. */
  ghost predicate Asked(cfg: Config, run: seq<Call>)
    requires Possible(NEW_CONN, cfg, run)
  {
    exists i: nat :: i < |run| && run[i].Shutdown? && At(cfg, run, i).phase == Connected
  }

  /** What holds of a live connection once shutdown() was called: it is in hand, or done as soon as output is gone. */
  predicate Honoured(c: Conn) {
    c.phase == Disconnected || ShutdownTask in c.tasks ||
    (c.phase == Disconnecting && (c.output == [] ==> c.halfClosed))
  }

  lemma HonouredStep(c: Conn, cfg: Config, call: Call)
    requires Allowed(c, call) && Inv(c) && TasksOk(c) && (c.phase == Connected ==> OnlySends(c))
    requires Honoured(c) || (call.Shutdown? && c.phase == Connected)
    ensures Honoured(Step(c, cfg, call))
  {
    hide KernelMay, Conserved;
    TasksStep(c, cfg, call);
    if ShutdownTask in c.tasks {
      assert c.tasks[0] == ShutdownTask || ShutdownTask in c.tasks[1..];
    }
    match call
    case Send(msg, inLoop, w) =>
      if c.phase == Connected && inLoop { SendKeeps(c, cfg, msg, w); }
      hide SendInLoop;
    case Task(w) =>
      if c.tasks[0].SendTask? { TaskHonours(c, cfg, w); }
    case _ =>
  }

  lemma TaskHonours(c: Conn, cfg: Config, w: WriteResult)
    requires Allowed(c, Task(w)) && Inv(c) && Honoured(c) && c.tasks[0].SendTask?
    ensures Honoured(Step(c, cfg, Task(w)))
  {
    var c1, msg := c.(tasks := c.tasks[1..]), c.tasks[0].msg;
    SendKeeps(c1, cfg, msg, w);
    SendOutput(c1, cfg, msg, w);
    if ShutdownTask in c.tasks {
      assert ShutdownTask in c.tasks[1..];
    }
  }

  lemma AskedSnoc(cfg: Config, run: seq<Call>)
    requires Possible(NEW_CONN, cfg, run) && run != []
    ensures var n := |run| - 1;
      && Possible(NEW_CONN, cfg, run[..n])
      && (Asked(cfg, run) ==>
            Asked(cfg, run[..n]) || (run[n].Shutdown? && Exec(NEW_CONN, cfg, run[..n]).phase == Connected))
  {
    var n: nat := |run| - 1;
    AtLast(cfg, run);
    hide Possible, Exec, At;
    if Asked(cfg, run) {
      var i: nat :| i < |run| && run[i].Shutdown? && At(cfg, run, i).phase == Connected;
      if i < n {
        AtPrefix(cfg, run, i, n);
        assert run[..n][i].Shutdown? && At(cfg, run[..n], i).phase == Connected;
      }
    }
  }

  /**
    Over every run, a shutdown() of a connected connection is honoured: until the
    connection is lost, either its task is still waiting or shutdownWrite() has been
    issued unless output still waits.
  */
  lemma {:induction false} ShutdownHonoured(cfg: Config, run: seq<Call>)
    requires Possible(NEW_CONN, cfg, run) && Asked(cfg, run)
    ensures Honoured(Exec(NEW_CONN, cfg, run))
    decreases |run|
  {
    var n := |run| - 1;
    LastCall(NEW_CONN, cfg, run);
    AskedSnoc(cfg, run);
    PhaseIs(cfg, run[..n]);
    RunInv(NEW_CONN, cfg, run[..n]);
    hide Possible, Exec, Step, Allowed, Inv, Honoured, Asked, Lost, Established, Untroubled;
    if Asked(cfg, run[..n]) {
      ShutdownHonoured(cfg, run[..n]);
    }
    HonouredStep(Exec(NEW_CONN, cfg, run[..n]), cfg, run[n]);
  }

  // ---------------------------------------------------------------- reading

  /** What the call says about reading, if anything. */
  function SaysRead(c: Conn, call: Call): Option<bool> {
    match call
    case Establish => Some(true)
    case StartRead => Some(true)
    case StopRead => Some(false)
    case _ => if Closes(c, call) then Some(false) else None
  }

  /** Read interest is what the last call to say something about it said. */
  lemma ReadStep(c: Conn, cfg: Config, call: Call)
    requires Allowed(c, call)
    ensures Step(c, cfg, call).wantRead == if SaysRead(c, call).Some? then SaysRead(c, call).value else c.wantRead
    ensures Step(c, cfg, call).reading == if call.StartRead? || call.StopRead? then call.StartRead? else c.reading
  {
    hide SendInLoop, KernelMay;
    match call
    case Send(msg, inLoop, w) =>
      if c.phase == Connected && inLoop { SendKeepsRead(c, cfg, msg, w); }
    case Task(w) =>
      if c.tasks[0].SendTask? {
        KernelMaySame(c, c.(tasks := c.tasks[1..]), |c.tasks[0].msg|, w);
        SendKeepsRead(c.(tasks := c.tasks[1..]), cfg, c.tasks[0].msg, w);
      }
    case _ =>
  }

  lemma SendKeepsRead(c: Conn, cfg: Config, msg: seq<Byte>, w: WriteResult)
    requires KernelMay(c, |msg|, w)
    ensures var r := SendInLoop(c, cfg, msg, w); r.wantRead == c.wantRead && r.reading == c.reading
  {
  }

  /** The last call of the run that says something about reading is the i-th. */
  ghost predicate LastSays(cfg: Config, run: seq<Call>, i: nat)
    requires Possible(NEW_CONN, cfg, run)
  {
    && i < |run| && SaysRead(At(cfg, run, i), run[i]).Some?
    && forall j: nat | i < j < |run| :: SaysRead(At(cfg, run, j), run[j]).None?
  }

  /** Over every run: the channel listens for reading exactly if the last call to say so said yes. */
  lemma {:induction false} ReadingIs(cfg: Config, run: seq<Call>, i: nat)
    requires Possible(NEW_CONN, cfg, run) && LastSays(cfg, run, i)
    ensures Exec(NEW_CONN, cfg, run).wantRead == SaysRead(At(cfg, run, i), run[i]).value
    decreases |run|
  {
    var n: nat := |run| - 1;
    LastCall(NEW_CONN, cfg, run);
    AtLast(cfg, run);
    ReadStep(Exec(NEW_CONN, cfg, run[..n]), cfg, run[n]);
    hide Possible, Exec, Step, Allowed, SaysRead, At;
    if i < n {
      AtPrefix(cfg, run, i, n);
      forall j: nat | i < j < n
        ensures SaysRead(At(cfg, run[..n], j), run[..n][j]).None?
      {
        AtPrefix(cfg, run, j, n);
      }
      ReadingIs(cfg, run[..n], i);
    }
  }
}
