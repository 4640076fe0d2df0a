/**
  What one TCP connection does, call by call (muduo/net/TcpConnection.cc), over
  a kernel that takes any prefix of a write, blocks, or fails.  Each call is one
  step on a value; the invariants hold after every run of steps.
*/
module Connection {
  import opened Buffer

  datatype Phase = Disconnected | Connecting | Connected | Disconnecting

  /** What write() answered: a count, EWOULDBLOCK, EPIPE or ECONNRESET, or any other error. */
  datatype WriteResult = Wrote(n: nat) | WouldBlock | Broken | OtherError

  /** Calls bound to this connection that wait in the loop's queue. */
  datatype Task = SendTask(msg: seq<Byte>) | ShutdownTask | ForceCloseTask

  /** Callbacks queued for the user. */
  datatype Notice = WriteComplete | HighWater(size: nat)

  datatype Config = Config(onWriteComplete: bool, onHighWater: bool, highWaterMark: nat)

  datatype Conn = Conn(
    phase: Phase,                // state_
    reading: bool,               // reading_
    wantRead: bool,              // the channel's read interest
    wantWrite: bool,             // the channel's write interest
    output: seq<Byte>,           // outputBuffer_
    halfClosed: bool,            // shutdownWrite() was issued
    tasks: seq<Task>,
    notices: seq<Notice>,
    kernel: seq<Byte>,           // history: bytes the kernel took
    admitted: seq<Byte>)         // history: bytes of the messages that were taken on

  const NEW_CONN := Conn(Connecting, true, false, false, [], false, [], [], [], [])

  /** The kernel never takes more than it is given, and nothing after shutdownWrite(). */
  predicate KernelMay(c: Conn, len: nat, w: WriteResult) {
    (w.Wrote? ==> w.n <= len) && (c.halfClosed ==> w == Broken || (len == 0 && w == Wrote(0)))
  }

  // ---------------------------------------------------------------- the calls

  function Notify(c: Conn, on: bool, n: Notice): Conn {
    if on then c.(notices := c.notices + [n]) else c
  }

  /** TcpConnection.cc:177-191: what is left of a message goes to the output buffer. */
  function BufferRest(c: Conn, cfg: Config, rest: seq<Byte>): Conn {
    if rest == [] then c else
      var oldLen := |c.output|;
      var high := cfg.onHighWater && oldLen + |rest| >= cfg.highWaterMark && oldLen < cfg.highWaterMark;
      Notify(c, high, HighWater(oldLen + |rest|)).(output := c.output + rest, wantWrite := true)
  }

  /** TcpConnection.cc:139-192. */
  function SendInLoop(c: Conn, cfg: Config, msg: seq<Byte>, w: WriteResult): Conn
    requires KernelMay(c, |msg|, w)
  {
    if c.phase == Disconnected then c
    else if !c.wantWrite && c.output == [] then
      match w
      case Wrote(n) =>
        var c1 := c.(kernel := c.kernel + msg[..n], admitted := c.admitted + msg);
        BufferRest(Notify(c1, n == |msg| && cfg.onWriteComplete, WriteComplete), cfg, msg[n..])
      case Broken => c
      case _ => BufferRest(c.(admitted := c.admitted + msg), cfg, msg)
    else BufferRest(c.(admitted := c.admitted + msg), cfg, msg)
  }

  /** TcpConnection.cc:205-213. */
  function ShutdownInLoop(c: Conn): Conn {
    if !c.wantWrite then c.(halfClosed := true) else c
  }

  /** TcpConnection.cc:368-406. */
  function HandleWrite(c: Conn, cfg: Config, w: WriteResult): Conn
    requires KernelMay(c, |c.output|, w)
  {
    if c.wantWrite && w.Wrote? && w.n > 0 then
      var c1 := c.(kernel := c.kernel + c.output[..w.n], output := c.output[w.n..]);
      if c1.output == [] then
        var c2 := Notify(c1.(wantWrite := false), cfg.onWriteComplete, WriteComplete);
        if c2.phase == Disconnecting then ShutdownInLoop(c2) else c2
      else c1
    else c
  }

  /** TcpConnection.cc:408-421. */
  function HandleClose(c: Conn): Conn {
    c.(phase := Disconnected, wantRead := false, wantWrite := false)
  }

  /** TcpConnection.cc:261-269. */
  function ForceCloseInLoop(c: Conn): Conn {
    if c.phase == Connected || c.phase == Disconnecting then HandleClose(c) else c
  }

  function RunTask(c: Conn, cfg: Config, w: WriteResult): Conn
    requires c.tasks != []
    requires c.tasks[0].SendTask? ==> KernelMay(c, |c.tasks[0].msg|, w)
  {
    var c1 := c.(tasks := c.tasks[1..]);
    match c.tasks[0]
    case SendTask(msg) => SendInLoop(c1, cfg, msg, w)
    case ShutdownTask => ShutdownInLoop(c1)
    case ForceCloseTask => ForceCloseInLoop(c1)
  }

  datatype Call =
    | Establish                                                  // connectEstablished
    | Send(msg: seq<Byte>, inLoop: bool, w: WriteResult)         // send, from the loop thread or another
    | Writable(w: WriteResult)                                   // handleWrite
    | Shutdown(inLoop: bool)                                     // shutdown
    | ForceClose                                                 // forceClose
    | Task(w: WriteResult)                                       // the loop runs the next queued call
    | PeerClosed                                                 // handleClose, also from handleRead
    | StartRead
    | StopRead
    | Destroy                                                    // connectDestroyed

  /** What the code itself demands of each call, by assertion or by who makes it. */
  predicate Allowed(c: Conn, call: Call) {
    match call
    case Establish => c.phase == Connecting
    case Send(msg, _, w) => KernelMay(c, |msg|, w)
    case Writable(w) => KernelMay(c, |c.output|, w)
    case Task(w) => c.tasks != [] && (c.tasks[0].SendTask? ==> KernelMay(c, |c.tasks[0].msg|, w))
    case PeerClosed => c.phase == Connected || c.phase == Disconnecting
    case Destroy => c.phase == Connected || (!c.wantRead && !c.wantWrite)
    case _ => true
  }

  function Step(c: Conn, cfg: Config, call: Call): Conn
    requires Allowed(c, call)
  {
    match call
    case Establish => c.(phase := Connected, wantRead := true)
    case Send(msg, inLoop, w) =>
      if c.phase != Connected then c
      else if inLoop then SendInLoop(c, cfg, msg, w)
      else c.(tasks := c.tasks + [SendTask(msg)])
    case Writable(w) => HandleWrite(c, cfg, w)
    case Shutdown(inLoop) =>
      if c.phase != Connected then c
      else if inLoop then ShutdownInLoop(c.(phase := Disconnecting))
      else c.(phase := Disconnecting, tasks := c.tasks + [ShutdownTask])
    case ForceClose =>
      if c.phase == Connected || c.phase == Disconnecting
      then c.(phase := Disconnecting, tasks := c.tasks + [ForceCloseTask]) else c
    case Task(w) => RunTask(c, cfg, w)
    case PeerClosed => HandleClose(c)
    case StartRead => if !c.reading || !c.wantRead then c.(wantRead := true, reading := true) else c
    case StopRead => if c.reading || c.wantRead then c.(wantRead := false, reading := false) else c
    case Destroy => if c.phase == Connected then HandleClose(c) else c
  }

  predicate Possible(c: Conn, cfg: Config, run: seq<Call>)
    decreases |run|
  {
    run == [] || (Allowed(c, run[0]) && Possible(Step(c, cfg, run[0]), cfg, run[1..]))
  }

  function Exec(c: Conn, cfg: Config, run: seq<Call>): Conn
    requires Possible(c, cfg, run)
    decreases |run|
  {
    if run == [] then c else Exec(Step(c, cfg, run[0]), cfg, run[1..])
  }

  // ---------------------------------------------------------------- invariants

  /** Bytes the kernel took, then bytes still buffered, are the bytes admitted. */
  predicate Conserved(c: Conn) {
    c.kernel + c.output == c.admitted
  }

  /** Write interest is on exactly while there is output, and never once disconnected. */
  predicate InterestOk(c: Conn) {
    match c.phase
    case Disconnected => !c.wantWrite
    case Connecting => !c.wantWrite && c.output == []
    case _ => c.wantWrite <==> c.output != []
  }

  predicate Inv(c: Conn) {
    Conserved(c) && InterestOk(c) && (c.halfClosed && c.phase != Disconnected ==> c.output == [])
  }

  lemma SendInLoopInv(c: Conn, cfg: Config, msg: seq<Byte>, w: WriteResult)
    requires Inv(c) && KernelMay(c, |msg|, w) && c.phase != Connecting
    ensures Inv(SendInLoop(c, cfg, msg, w))
  {
    hide Conserved;
    SendInLoopConserves(c, cfg, msg, w);
  }

  lemma SendInLoopConserves(c: Conn, cfg: Config, msg: seq<Byte>, w: WriteResult)
    requires Conserved(c) && KernelMay(c, |msg|, w)
    ensures Conserved(SendInLoop(c, cfg, msg, w))
  {
    hide Conserved;
    if c.phase != Disconnected {
      if !c.wantWrite && c.output == [] && w.Wrote? {
        Split(c, msg, w.n);
        var c1 := c.(kernel := c.kernel + msg[..w.n], admitted := c.admitted + msg);
        BufferRestConserves(Notify(c1, w.n == |msg| && cfg.onWriteComplete, WriteComplete), cfg, msg[w.n..]);
      } else {
        Owed(c, msg);
        BufferRestConserves(c.(admitted := c.admitted + msg), cfg, msg);
      }
    }
  }

  /** What is in hand with rest still to be buffered accounts for all that was admitted. */
  predicate Owes(c: Conn, rest: seq<Byte>) {
    c.kernel + c.output + rest == c.admitted
  }

  lemma Split(c: Conn, msg: seq<Byte>, n: nat)
    requires Conserved(c) && c.output == [] && n <= |msg|
    ensures Owes(c.(kernel := c.kernel + msg[..n], admitted := c.admitted + msg), msg[n..])
  {
    assert msg == msg[..n] + msg[n..];
  }

  lemma Owed(c: Conn, msg: seq<Byte>)
    requires Conserved(c)
    ensures Owes(c.(admitted := c.admitted + msg), msg)
  {
  }

  lemma BufferRestConserves(c: Conn, cfg: Config, rest: seq<Byte>)
    requires Owes(c, rest)
    ensures Conserved(BufferRest(c, cfg, rest))
  {
    var r := BufferRest(c, cfg, rest);
    assert r.kernel + r.output == c.kernel + c.output + rest;
  }

  lemma HandleWriteInv(c: Conn, cfg: Config, w: WriteResult)
    requires Inv(c) && KernelMay(c, |c.output|, w)
    ensures Inv(HandleWrite(c, cfg, w))
  {
    if c.wantWrite && w.Wrote? && w.n > 0 {
      assert c.output == c.output[..w.n] + c.output[w.n..];
      assert c.kernel + c.output[..w.n] + c.output[w.n..] == c.kernel + c.output;
    }
  }

  /** Nothing is queued on a connection before it is established. */
  predicate TasksOk(c: Conn) {
    c.phase == Connecting ==> c.tasks == []
  }

  /** Whether the call hands bytes to the kernel. */
  predicate Writes(c: Conn, call: Call) {
    match call
    case Send(_, inLoop, _) => c.phase == Connected && inLoop
    case Writable(_) => true
    case Task(_) => c.tasks != [] && c.tasks[0].SendTask?
    case _ => false
  }

  lemma QuietInv(c: Conn, cfg: Config, call: Call)
    requires Inv(c) && TasksOk(c) && Allowed(c, call) && !Writes(c, call)
    ensures Inv(Step(c, cfg, call)) && TasksOk(Step(c, cfg, call))
  {
    hide SendInLoop, HandleWrite, KernelMay;
  }

  lemma StepInv(c: Conn, cfg: Config, call: Call)
    requires Inv(c) && TasksOk(c) && Allowed(c, call)
    ensures Inv(Step(c, cfg, call)) && TasksOk(Step(c, cfg, call))
  {
    hide SendInLoop, HandleWrite, Inv, KernelMay;
    if !Writes(c, call) {
      QuietInv(c, cfg, call);
      return;
    }
    match call
    case Send(msg, _, w) =>
      SendInLoopInv(c, cfg, msg, w);
      SendKeeps(c, cfg, msg, w);
    case Writable(w) =>
      HandleWriteInv(c, cfg, w);
      WriteKeepsPhase(c, cfg, w);
    case Task(w) =>
      var c1, msg := c.(tasks := c.tasks[1..]), c.tasks[0].msg;
      SameInv(c, c1);
      KernelMaySame(c, c1, |msg|, w);
      SendInLoopInv(c1, cfg, msg, w);
      SendKeeps(c1, cfg, msg, w);
  }

  lemma SameInv(c: Conn, c1: Conn)
    requires Inv(c) && c1 == c.(tasks := c1.tasks)
    ensures Inv(c1)
  {
  }

  lemma SendKeeps(c: Conn, cfg: Config, msg: seq<Byte>, w: WriteResult)
    requires KernelMay(c, |msg|, w)
    ensures var r := SendInLoop(c, cfg, msg, w);
      r.phase == c.phase && r.tasks == c.tasks && r.halfClosed == c.halfClosed
  {
  }

  lemma WriteKeepsPhase(c: Conn, cfg: Config, w: WriteResult)
    requires KernelMay(c, |c.output|, w)
    ensures HandleWrite(c, cfg, w).phase == c.phase && HandleWrite(c, cfg, w).tasks == c.tasks
  {
  }

  lemma {:induction false} RunInv(c: Conn, cfg: Config, run: seq<Call>)
    requires Inv(c) && TasksOk(c) && Possible(c, cfg, run)
    ensures Inv(Exec(c, cfg, run)) && TasksOk(Exec(c, cfg, run))
    decreases |run|
  {
    if run != [] {
      StepInv(c, cfg, run[0]);
      RunInv(Step(c, cfg, run[0]), cfg, run[1..]);
    }
  }

  /**
    Over any run, the kernel's bytes followed by the buffered ones are the
    admitted messages in order, and write interest is on exactly while bytes wait
    on a live connection.
  */
  lemma BytesConserved(cfg: Config, run: seq<Call>)
    requires Possible(NEW_CONN, cfg, run)
    ensures var c := Exec(NEW_CONN, cfg, run);
      && c.kernel + c.output == c.admitted
      && (c.phase == Connected || c.phase == Disconnecting ==> (c.wantWrite <==> c.output != []))
      && (c.phase == Disconnected ==> !c.wantWrite)
  {
    RunInv(NEW_CONN, cfg, run);
  }

  /** What the connection has admitted so far is what the messages it took on amount to. */
  function Taken(c: Conn, call: Call): seq<Byte>
    requires Allowed(c, call)
  {
    match call
    case Send(msg, inLoop, w) => if c.phase == Connected && inLoop && TakesOn(c, w) then msg else []
    case Task(w) => if c.tasks[0].SendTask? && c.phase != Disconnected && TakesOn(c, w) then c.tasks[0].msg else []
    case _ => []
  }

  /** A message is lost only when it is written at once and the peer is gone. */
  predicate TakesOn(c: Conn, w: WriteResult) {
    c.wantWrite || c.output != [] || w != Broken
  }

  function AllTaken(c: Conn, cfg: Config, run: seq<Call>): seq<Byte>
    requires Possible(c, cfg, run)
    decreases |run|
  {
    if run == [] then [] else Taken(c, run[0]) + AllTaken(Step(c, cfg, run[0]), cfg, run[1..])
  }

  lemma SendAdmits(c: Conn, cfg: Config, msg: seq<Byte>, w: WriteResult)
    requires KernelMay(c, |msg|, w)
    ensures SendInLoop(c, cfg, msg, w).admitted ==
      (if c.phase != Disconnected && TakesOn(c, w) then c.admitted + msg else c.admitted)
  {
  }

  lemma StepAdmits(c: Conn, cfg: Config, call: Call)
    requires Allowed(c, call)
    ensures Step(c, cfg, call).admitted == c.admitted + Taken(c, call)
  {
    hide SendInLoop, KernelMay;
    assert c.admitted + [] == c.admitted;
    match call
    case Send(msg, inLoop, w) =>
      if c.phase == Connected && inLoop { SendAdmits(c, cfg, msg, w); }
    case Task(w) =>
      var c1 := c.(tasks := c.tasks[1..]);
      if c.tasks[0].SendTask? {
        KernelMaySame(c, c1, |c.tasks[0].msg|, w);
        SendAdmits(c1, cfg, c.tasks[0].msg, w);
      }
    case _ =>
  }

  lemma KernelMaySame(c: Conn, c1: Conn, len: nat, w: WriteResult)
    requires KernelMay(c, len, w) && c1.halfClosed == c.halfClosed
    ensures KernelMay(c1, len, w)
  {
  }

  lemma {:induction false} AdmittedIsTaken(c: Conn, cfg: Config, run: seq<Call>)
    requires Possible(c, cfg, run)
    ensures Exec(c, cfg, run).admitted == c.admitted + AllTaken(c, cfg, run)
    decreases |run|
  {
    hide Step, Taken, Allowed;
    if run != [] {
      var c1 := Step(c, cfg, run[0]);
      AdmittedIsTaken(c1, cfg, run[1..]);
      StepAdmits(c, cfg, run[0]);
      assert c.admitted + Taken(c, run[0]) + AllTaken(c1, cfg, run[1..]) ==
        c.admitted + (Taken(c, run[0]) + AllTaken(c1, cfg, run[1..]));
    }
  }

  /** The messages that reached sendInLoop and were not refused are what the kernel got and what waits. */
  lemma MessagesConserved(cfg: Config, run: seq<Call>)
    requires Possible(NEW_CONN, cfg, run)
    ensures var c := Exec(NEW_CONN, cfg, run); c.kernel + c.output == AllTaken(NEW_CONN, cfg, run)
  {
    RunInv(NEW_CONN, cfg, run);
    AdmittedIsTaken(NEW_CONN, cfg, run);
    assert [] + AllTaken(NEW_CONN, cfg, run) == AllTaken(NEW_CONN, cfg, run);
  }

  // ---------------------------------------------------------------- shutting down

  /** This step makes the code call shutdownWrite(). */
  predicate Issues(c: Conn, cfg: Config, call: Call)
    requires Allowed(c, call)
  {
    match call
    case Shutdown(inLoop) => c.phase == Connected && inLoop && !c.wantWrite
    case Task(_) => c.tasks[0] == ShutdownTask && !c.wantWrite
    case Writable(w) => c.wantWrite && w.Wrote? && w.n > 0 && w.n == |c.output| && c.phase == Disconnecting
    case _ => false
  }

  /**
    Whenever shutdownWrite() is issued after any run, the output buffer has
    drained, except on a connection that is already disconnected with output left.
  */
  lemma ShutdownDrained(cfg: Config, run: seq<Call>, call: Call)
    requires Possible(NEW_CONN, cfg, run)
    requires Allowed(Exec(NEW_CONN, cfg, run), call) && Issues(Exec(NEW_CONN, cfg, run), cfg, call)
    ensures var c := Exec(NEW_CONN, cfg, run);
      var r := Step(c, cfg, call);
      r.halfClosed && (r.output == [] <==> !(c.phase == Disconnected && c.output != []))
  {
    RunInv(NEW_CONN, cfg, run);
  }

  /** Nothing else half-closes the connection, and every issue of shutdownWrite() does. */
  lemma HalfClosedByIssues(c: Conn, cfg: Config, call: Call)
    requires Allowed(c, call)
    ensures Step(c, cfg, call).halfClosed <==> c.halfClosed || Issues(c, cfg, call)
  {
    hide BufferRest;
    match call
    case Send(msg, inLoop, w) =>
      if c.phase == Connected && inLoop { SendKeeps(c, cfg, msg, w); }
    case Task(w) =>
      if c.tasks[0].SendTask? { SendKeeps(c.(tasks := c.tasks[1..]), cfg, c.tasks[0].msg, w); }
    case _ =>
  }

  /** shutdown() is only called in the loop thread. */
  predicate InLoopOnly(run: seq<Call>) {
    forall i | 0 <= i < |run| :: run[i].Shutdown? ==> run[i].inLoop
  }

  predicate NoShutdownTask(c: Conn) {
    forall i | 0 <= i < |c.tasks| :: c.tasks[i] != ShutdownTask
  }

  lemma {:induction false} NonePosted(c: Conn, cfg: Config, run: seq<Call>)
    requires Possible(c, cfg, run) && InLoopOnly(run) && NoShutdownTask(c)
    ensures NoShutdownTask(Exec(c, cfg, run))
    decreases |run|
  {
    if run != [] {
      NonePostedStep(c, cfg, run[0]);
      hide Step, Allowed;
      NonePosted(Step(c, cfg, run[0]), cfg, run[1..]);
    }
  }

  lemma NonePostedStep(c: Conn, cfg: Config, call: Call)
    requires Allowed(c, call) && (call.Shutdown? ==> call.inLoop) && NoShutdownTask(c)
    ensures NoShutdownTask(Step(c, cfg, call))
  {
    hide BufferRest;
    match call
    case Send(msg, inLoop, w) =>
      if c.phase == Connected && inLoop { SendKeeps(c, cfg, msg, w); }
    case Task(w) =>
      if c.tasks[0].SendTask? { SendKeeps(c.(tasks := c.tasks[1..]), cfg, c.tasks[0].msg, w); }
    case _ =>
  }

  /** With shutdown() called in the loop thread only, shutdownWrite() never cuts off output, over every run. */
  lemma InLoopShutdownDrained(cfg: Config, run: seq<Call>, call: Call)
    requires Possible(NEW_CONN, cfg, run) && InLoopOnly(run + [call])
    requires Allowed(Exec(NEW_CONN, cfg, run), call) && Issues(Exec(NEW_CONN, cfg, run), cfg, call)
    ensures Step(Exec(NEW_CONN, cfg, run), cfg, call).output == []
  {
    assert forall i | 0 <= i < |run| :: (run + [call])[i] == run[i];
    assert (run + [call])[|run|] == call;
    NonePosted(NEW_CONN, cfg, run);
    RunInv(NEW_CONN, cfg, run);
    hide Exec, Possible;
  }

  /** The exception is real: output pending, shutdown() from another thread, and the peer closes first. */
  lemma UndrainedShutdown(cfg: Config, b: Byte)
    ensures var run := [Establish, Send([b], true, WouldBlock), Shutdown(false), PeerClosed];
      && Possible(NEW_CONN, cfg, run)
      && var c := Exec(NEW_CONN, cfg, run);
         Allowed(c, Task(WouldBlock)) && Issues(c, cfg, Task(WouldBlock)) && c.output == [b]
  {
    var c1 := Step(NEW_CONN, cfg, Establish);
    var c2 := Step(c1, cfg, Send([b], true, WouldBlock));
    var c3 := Step(c2, cfg, Shutdown(false));
    var c4 := Step(c3, cfg, PeerClosed);
    var run := [Establish, Send([b], true, WouldBlock), Shutdown(false), PeerClosed];
    assert run[1..] == [Send([b], true, WouldBlock), Shutdown(false), PeerClosed];
    assert run[1..][1..] == [Shutdown(false), PeerClosed];
    assert run[1..][1..][1..] == [PeerClosed];
    assert run[1..][1..][1..][1..] == [];
    assert Possible(c4, cfg, []) && Exec(c4, cfg, []) == c4;
    assert Possible(c3, cfg, [PeerClosed]) && Exec(c3, cfg, [PeerClosed]) == c4;
    assert Possible(c2, cfg, run[1..][1..]) && Exec(c2, cfg, run[1..][1..]) == c4;
    assert Possible(c1, cfg, run[1..]) && Exec(c1, cfg, run[1..]) == c4;
    assert c2.output == [] + [b];
  }
}
