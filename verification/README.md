# Verified models of muduo

Models, in Dafny, of the parts of the muduo network library and its examples
that keep several pieces of state consistent over unbounded runs, or implement
a fast algorithm for a simple specification, with proofs that they do.
`dafny verify dfyconfig.toml` checks everything.

Code that works by changing things is a class whose methods are proved equal to
functions on values; the properties of whole runs are proved about those
functions, and what those functions do is in turn told from the calls, the
environment's answers and the bytes alone (the modules named `...Laws`, and
`TimerLife`). Threads take turns at lock sections and system calls; the kernel is
an environment that may write any prefix, fail, or fire at any time.

| subject | modules | main results |
|---|---|---|
| dancing links | `Torus`, `Cover`, `ExactCover` | uncover undoes cover on any well-formed torus; search finds an exact cover if there is one |
| Sudoku solver | `Sudoku`, `TorusBuild`, `SudokuBuild`, `SudokuSolver` | sound and complete for every 81-character puzzle |
| event loop | `EventLoop`, `EventLoopLaws`, `Reactor` | functors run once, in push order; no wakeup is lost |
| connection | `Connection`, `ConnectionLaws`, `TcpConnection`, `Channel`, `Buffer` | output bytes conserved over every run; write interest exactly while output waits |
| timers | `Timers`, `TimerLife`, `TimerQueue` | a timer fires when asked, both indexes agree, the timerfd is armed in time, and exactly when a cancel works |
| asynchronous log | `AsyncLog`, `AsyncLogging` | lines conserved in order; the consumer always has its spare buffers |
| pollers | `Pollers` | poll and epoll hold the same interests after every run |
| calendar | `Calendar`, `UtcTime` | both conversions inverse, from 1 March -4800 on |
| framing | `Codec`, `CodecLaws` | round trip under every chunking; what becomes of any bytes |
| RPC balancer | `RawFrames`, `RpcBalancer`, `BalancerLaws` | each reply reaches the client that asked, once, with its own id |
| memcached | `Memcache`, `MemcacheLaws`, `MemcacheServer` | the shards refine one map; cas is exact |
| statistics | `SudokuStat` | each slot of the ring equals a recount of the history |
| idle connections | `IdleWheel` | destroyed at exactly the idleSeconds-th turn |

`Options` holds the one shared datatype.

Where the code does not do what one would expect, the exact condition is proved:

- `EventLoop.NoLostWakeup`: functors that the loop thread queues before `loop()`
  may wait until something else wakes the loop (EventLoop.cc:167).
- `Connection.ShutdownDrained`: a shutdown posted from another thread can run
  after the peer closed the connection with output left; `shutdownWrite` is then
  issued undrained (TcpConnection.cc:205-213). `Connection.UndrainedShutdown` is such a run;
  with shutdown called in the loop thread only there is none (`Connection.InLoopShutdownDrained`).
- `Timers.CancelTakesEffect`: a cancel that arrives before `addTimerInLoop` is
  forgotten and the timer runs; one that a callback makes of a later timer of its
  own batch comes too late for that batch, since `handleRead` does not look at
  `cancelingTimers_` (TimerQueue.cc:174-177). `Timers.EarlyCancelForgotten` and
  `Timers.BatchMateStillRuns` are such runs.
- `UtcTime.YearDay`, `UtcTime.WeekDays`: truncating division makes `tm_yday` off
  by one in year -4800 and `tm_wday` negative for day numbers below -1.
- `AsyncLog.KeptIffShort`: a line as long as the large buffer is never stored.
- `Codec.AcceptedIffFits`: `fillEmptyBuffer` frames messages longer than the 64 MB
  that `onMessage` accepts; the receiver stops there.
- `RawFrames.ReparsesIff`: `parse` forgets the checksum in its length test, so an
  id of a shorter frame is partly overwritten by the checksum; `RawFrames.ShortFrameExists`
  gives such a frame for every tag.
- `Pollers.PollPoller.AgainIffNegative`: `PollPoller::removeChannel` leaves the index
  of the removed channel as it was, so the channel fails the assertions of
  `updateChannel` from then on (`Pollers.PollRefusesAgain`), while `EPollPoller`
  takes it again (`Pollers.EPollTakesAgain`). `Pollers.Replay` uses a new channel
  for a descriptor that comes back.

## Model

| member | source | states |
|---|---|---|
| `Torus.RelinkUndoesUnlinkV` | muduo-master/examples/sudoku/sudoku.cc:224-237 | the three assignments of uncover put back every field of every node that the three of cover changed, for an item of any circular column |
| `Torus.RelinkUndoesUnlinkH` | muduo-master/examples/sudoku/sudoku.cc:220-241 | the same for a header and the header list |
| `Torus.UnlinkVShortens` | muduo-master/examples/sudoku/sudoku.cc:224-226 | unlinking an item leaves its column a circle, both ways round, of exactly the other items in their order |
| `Torus.UnlinkVElsewhere` | muduo-master/examples/sudoku/sudoku.cc:224-226 | and leaves every circle that shares no node with that column as it was |
| `Torus.UnlinkHShortens` | muduo-master/examples/sudoku/sudoku.cc:220-221 | unlinking a header leaves the header list a circle of exactly the other headers |
| `Torus.UnlinkVRep` | muduo-master/examples/sudoku/sudoku.cc:224-226 | one vertical unlink keeps a well-formed torus well formed, sizes included |
| `Torus.UnlinkHRep` | muduo-master/examples/sudoku/sudoku.cc:220-221 | one horizontal unlink keeps a well-formed torus well formed |
| `Torus.UnlinkAllRep` | muduo-master/examples/sudoku/sudoku.cc:222-228 | unlinking any list of linked items keeps the torus well formed and hides exactly those items |
| `Cover.RingsHideable` | muduo-master/examples/sudoku/sudoku.cc:222-228 | the rows met by a cover are disjoint: no item is taken out twice, none of the column itself is |
| `Cover.CoverInv` | muduo-master/examples/sudoku/sudoku.cc:218-229 | cover keeps the invariant: the array holds the torus with its circles, and an open column lists exactly the rows that lie within the open columns |
| `Cover.UncoverUndoesCover` | muduo-master/examples/sudoku/sudoku.cc:218-242 | on any well-formed torus, uncover restores every link and size that cover changed |
| `Cover.CoverManyOpen` | muduo-master/examples/sudoku/sudoku.cc:120-122 | covering the other columns of a row keeps the invariant and opens exactly the columns outside the row |
| `ExactCover.ExtendCover` | muduo-master/examples/sudoku/sudoku.cc:118-125 | a row together with an exact cover of the columns it leaves open is an exact cover |
| `ExactCover.ReduceCover` | muduo-master/examples/sudoku/sudoku.cc:116-125 | every exact cover has a row in any given open column, and without that row is an exact cover of the columns outside it |
| `ExactCover.Exhausted` | muduo-master/examples/sudoku/sudoku.cc:131-132 | if no row of one open column can be completed, there is no exact cover at all |
| `Sudoku.Pigeonhole` | muduo-master/examples/sudoku/sudoku.cc:63-72 | nine places and nine digits: a digit is missing exactly when another is repeated |
| `Sudoku.NoRepeatIffComplete` | muduo-master/examples/sudoku/sudoku.cc:63-72 | a filled board repeats no digit in any row, column or box exactly when none of them lacks a digit |
| `Sudoku.UnitsAre` | muduo-master/examples/sudoku/sudoku.cc:48-50 | cells share a unit when they share a row, a column or a square of three by three |
| `Sudoku.CoverIsCompletion` | muduo-master/examples/sudoku/sudoku.cc:57-111 | writing the rows of an exact cover into the board gives a completion of the puzzle, even when the givens clash |
| `Sudoku.CompletionIsCover` | muduo-master/examples/sudoku/sudoku.cc:57-111 | every completion of the puzzle is what some exact cover of the columns built for it writes into the board |
| `TorusBuild.PutLeftGrows` | muduo-master/examples/sudoku/sudoku.cc:244-250 | put_left appends one node to a circular list |
| `TorusBuild.PutUpGrows` | muduo-master/examples/sudoku/sudoku.cc:252-260 | put_up appends one node to a column |
| `TorusBuild.ColumnAppendedRep` | muduo-master/examples/sudoku/sudoku.cc:158-165 | append_column turns a torus into the torus with one more, empty column |
| `TorusBuild.ItemAddedRep` | muduo-master/examples/sudoku/sudoku.cc:167-184 | new_row turns a torus into the torus with one more item, in a row of its own |
| `TorusBuild.RowClosedRep` | muduo-master/examples/sudoku/sudoku.cc:86-88 | three put_left join four such items into one row |
| `TorusBuild.RowAddedRep` | muduo-master/examples/sudoku/sudoku.cc:82-88 | four new_row and three put_left add one whole row |
| `SudokuBuild.AppendStep` | muduo-master/examples/sudoku/sudoku.cc:158-165 | appending a column keeps what construction keeps: table of columns, names, labels, node budget |
| `SudokuBuild.RowStep` | muduo-master/examples/sudoku/sudoku.cc:80-90 | so does adding the row of a cell and a digit |
| `SudokuBuild.Finished` | muduo-master/examples/sudoku/sudoku.cc:33-93 | when construction ends the torus encodes the board: its columns are the wants, its rows the candidates |
| `SudokuSolver.SudokuSolver.constructor` | muduo-master/examples/sudoku/sudoku.cc:33-93 | the array built for any board satisfies the invariant and encodes the board |
| `SudokuSolver.SudokuSolver.MarkGivens` | muduo-master/examples/sudoku/sudoku.cc:43-55 | the three tables mark exactly the digits given in each row, column and box |
| `SudokuSolver.SudokuSolver.AppendColumn` | muduo-master/examples/sudoku/sudoku.cc:158-165 | against SudokuBuild.AppendStep |
| `SudokuSolver.SudokuSolver.AppendCells` | muduo-master/examples/sudoku/sudoku.cc:57-61 | a column for every empty cell and no other |
| `SudokuSolver.SudokuSolver.AppendUnits` | muduo-master/examples/sudoku/sudoku.cc:63-72 | a column for every digit that a row, column or box still lacks |
| `SudokuSolver.SudokuSolver.NewItem` | muduo-master/examples/sudoku/sudoku.cc:167-184 | against TorusBuild.ItemAddedRep |
| `SudokuSolver.SudokuSolver.AddRow` | muduo-master/examples/sudoku/sudoku.cc:82-88 | against SudokuBuild.RowStep |
| `SudokuSolver.SudokuSolver.AddRows` | muduo-master/examples/sudoku/sudoku.cc:74-92 | a row for every candidate, within the node budget of line 25 |
| `SudokuSolver.SudokuSolver.Cover` | muduo-master/examples/sudoku/sudoku.cc:218-229 | the two nested pointer loops compute Cover.Covered and keep the invariant |
| `SudokuSolver.SudokuSolver.Uncover` | muduo-master/examples/sudoku/sudoku.cc:231-242 | the reversed loops give back the array as it was before the cover |
| `SudokuSolver.SudokuSolver.GetMinColumn` | muduo-master/examples/sudoku/sudoku.cc:201-216 | an open header, either of size at most 1 or of least size among the open ones |
| `SudokuSolver.SudokuSolver.CoverRow` | muduo-master/examples/sudoku/sudoku.cc:120-122 | the loop to the right covers the columns of the row, in order |
| `SudokuSolver.SudokuSolver.UncoverRow` | muduo-master/examples/sudoku/sudoku.cc:127-129 | the loop to the left undoes it exactly |
| `SudokuSolver.SudokuSolver.ReadRow` | muduo-master/examples/sudoku/sudoku.cc:99-111 | walking a row finds its cell and its digit |
| `SudokuSolver.SudokuSolver.WriteSolution` | muduo-master/examples/sudoku/sudoku.cc:98-112 | the stack is written into the board, every other cell kept |
| `SudokuSolver.SudokuSolver.Solve` | muduo-master/examples/sudoku/sudoku.cc:95-133 | true exactly when the open columns have an exact cover, which is then on the stack and in the board; on false the array, the stack and the board are as before; terminates because open columns fall |
| `SudokuSolver.SudokuSolver.Try` | muduo-master/examples/sudoku/sudoku.cc:119-129 | one row of the chosen column: the same, and everything restored on failure |
| `SudokuSolver.SolveSudoku` | muduo-master/examples/sudoku/sudoku.cc:263-291 | for every string of 81 characters: a valid completion keeping the givens if there is one, NoSolution otherwise |
| `SudokuSolver.ReadPuzzle` | muduo-master/examples/sudoku/sudoku.cc:269-275 | the digits, and whether all are 0 to 9 |
| `SudokuSolver.Decided` | muduo-master/examples/sudoku/sudoku.cc:277-290 | a cover found is a completion of the board; when the search fails the board has none |
| `EventLoop.RunInv` | muduo-master/muduo/net/EventLoop.cc:103-269 | every step of the loop thread or of any other thread keeps the invariant, over every interleaving |
| `EventLoop.RunsInPushOrder` | muduo-master/muduo/net/EventLoop.cc:160-171 | over every interleaving the functors run are the first ones pushed, in push order, none twice |
| `EventLoop.NoLostWakeup` | muduo-master/muduo/net/EventLoop.cc:103-171 | poll can never block with functors waiting, the eventfd unreadable and nobody between push and wakeup: exactly when loop() is entered without work the loop thread queued for itself |
| `EventLoop.QuitIsNoticed` | muduo-master/muduo/net/EventLoop.cc:136-146 | once another thread has finished quit(), poll cannot block |
| `EventLoop.DrainRunsAll` | muduo-master/muduo/net/EventLoop.cc:254-269 | a drain left alone runs everything pushed before it |
| `EventLoop.WaitingWillRun` | muduo-master/muduo/net/EventLoop.cc:103-171 | from every reachable state in poll with functors waiting, the wakeup on its way, if one is needed, and the loop thread's own steps run everything pushed |
| `EventLoopLaws.NothingDropped` | muduo-master/muduo/net/EventLoop.cc:103-269 | over every interleaving, from the steps alone: as many functors as were called have run, the first pushed by any thread; the rest is in the batch and the queue, in order |
| `EventLoopLaws.CounterIs` | muduo-master/muduo/net/EventLoop.cc:234-252 | the eventfd counts the writes since the wakeup channel last read it, up to its limit |
| `EventLoopLaws.QuitIs` | muduo-master/muduo/net/EventLoop.cc:111-146 | quit_ is set exactly by quit(), and a look at it stops the loop exactly then |
| `Reactor.EventLoop.QueueInLoop` | muduo-master/muduo/net/EventLoop.cc:160-171 | is Push then Wake of the protocol, and leaves the eventfd readable |
| `Reactor.EventLoop.QueueFromLoop` | muduo-master/muduo/net/EventLoop.cc:160-171 | from the loop thread, with other threads between push and wakeup: queues in order, and wakes while functors are being called |
| `Reactor.EventLoop.Wakeup` | muduo-master/muduo/net/EventLoop.cc:234-242 | adds one to the eventfd unless it is full |
| `Reactor.EventLoop.Quit` | muduo-master/muduo/net/EventLoop.cc:136-146 | is Quit then QuitWake of the protocol |
| `Reactor.EventLoop.Interleave` | muduo-master/muduo/net/EventLoop.cc:136-171 | any steps of other threads, of which those that are possible happen; nothing queued is lost |
| `Reactor.EventLoop.Promises` | muduo-master/muduo/net/EventLoop.cc:103-171 | whatever the calls so far, functors ran in push order and no wakeup is lost |
| `Reactor.EventLoop.DoPendingFunctors` | muduo-master/muduo/net/EventLoop.cc:254-269 | with other threads in between: runs what was queued before the swap in order and queues what the functors queue; alone, leaves just that, with the eventfd readable |
| `Reactor.EventLoop.HandleEvents` | muduo-master/muduo/net/EventLoop.cc:121-130 | every handler of one poll in turn, as steps of the protocol with other threads in between; what they queue is queued in order |
| `Reactor.EventLoop.Iterate` | muduo-master/muduo/net/EventLoop.cc:111-131 | one pass runs everything that was waiting when it began, and queues what its handlers and functors queue |
| `Reactor.EventLoop.Loop` | muduo-master/muduo/net/EventLoop.cc:103-134 | the whole loop, with other threads taking any steps between any two of its own, is a run of the protocol: a pass for every poll until quit, each running a batch, the first at least what was waiting; what ran is a prefix of what was pushed |
| `Connection.RunInv` | muduo-master/muduo/net/TcpConnection.cc:87-428 | every call, posted task and kernel event keeps the invariant of a connection |
| `Connection.BytesConserved` | muduo-master/muduo/net/TcpConnection.cc:139-192 | over every run: kernel bytes followed by the output buffer are the admitted bytes; write interest is on exactly while output waits on a live connection, never on a disconnected one |
| `Connection.AdmittedIsTaken` | muduo-master/muduo/net/TcpConnection.cc:139-192 | the admitted bytes are, in order, the messages that reached sendInLoop while not disconnected and were not cut off by EPIPE or ECONNRESET |
| `Connection.MessagesConserved` | muduo-master/muduo/net/TcpConnection.cc:139-406 | the two together: kernel bytes followed by buffered bytes are those messages |
| `Connection.ShutdownDrained` | muduo-master/muduo/net/TcpConnection.cc:205-213 | shutdownWrite is issued with the output drained, exactly when the connection is not already disconnected with output left |
| `Connection.InLoopShutdownDrained` | muduo-master/muduo/net/TcpConnection.cc:194-213 | over every run in which shutdown is called in the loop thread only, shutdownWrite is never issued with output left |
| `Connection.HalfClosedByIssues` | muduo-master/muduo/net/TcpConnection.cc:194-406 | a step half-closes the connection exactly when it is one of the three places that issue shutdownWrite |
| `Connection.UndrainedShutdown` | muduo-master/muduo/net/TcpConnection.cc:194-213 | a run that reaches the exception |
| `ConnectionLaws.KernelGrows` | muduo-master/muduo/net/TcpConnection.cc:139-192 | a call hands the kernel exactly the first bytes of what it offers to write, as many as write answers, and no others |
| `ConnectionLaws.KernelCount` | muduo-master/muduo/net/TcpConnection.cc:139-406 | over every run the kernel has as many bytes as its answers add up to |
| `ConnectionLaws.WritableKeepsRest` | muduo-master/muduo/net/TcpConnection.cc:368-406 | handleWrite drops the bytes taken from the front of the output and keeps the rest, on partial writes too |
| `ConnectionLaws.SendKeepsRest` | muduo-master/muduo/net/TcpConnection.cc:139-192 | sendInLoop keeps the rest of its message behind the waiting output, unless the connection is gone |
| `ConnectionLaws.NoticesExactly` | muduo-master/muduo/net/TcpConnection.cc:153-189 | write-complete is queued exactly when everything offered was written, high-water exactly when the output crosses the mark |
| `ConnectionLaws.TasksInOrder` | muduo-master/muduo/net/TcpConnection.cc:92-269 | over every run the tasks waiting are those posted from other threads and by forceClose, in order, but for as many as the loop has run |
| `ConnectionLaws.PhaseIs` | muduo-master/muduo/net/TcpConnection.cc:194-421 | the phase after every run, from the calls made: connecting until established, connected until something ends it, disconnected exactly once it is lost |
| `ConnectionLaws.ShutdownHonoured` | muduo-master/muduo/net/TcpConnection.cc:194-213 | over every run a shutdown of a connected connection is honoured: until the connection is lost, its task waits or shutdownWrite has been issued unless output still waits |
| `ConnectionLaws.ReadingIs` | muduo-master/muduo/net/TcpConnection.cc:293-345 | read interest is what the last call to say something about it said |
| `TcpConnection.TcpConnection.SendInLoop` | muduo-master/muduo/net/TcpConnection.cc:139-192 | the code is Connection.SendInLoop for every outcome of write |
| `TcpConnection.TcpConnection.HandleWrite` | muduo-master/muduo/net/TcpConnection.cc:368-406 | the code is Connection.HandleWrite |
| `TcpConnection.TcpConnection.ShutdownInLoop` | muduo-master/muduo/net/TcpConnection.cc:205-213 | against Connection.ShutdownInLoop |
| `TcpConnection.TcpConnection.Shutdown` | muduo-master/muduo/net/TcpConnection.cc:194-203 | in the loop at once, otherwise as a task |
| `TcpConnection.TcpConnection.Send` | muduo-master/muduo/net/TcpConnection.cc:92-110 | in the loop at once, otherwise as a task; nothing when not connected |
| `TcpConnection.TcpConnection.ForceClose` | muduo-master/muduo/net/TcpConnection.cc:239-247 | the phase becomes disconnecting and a task is posted |
| `TcpConnection.TcpConnection.ForceCloseInLoop` | muduo-master/muduo/net/TcpConnection.cc:261-269 | against Connection.ForceCloseInLoop |
| `TcpConnection.TcpConnection.HandleClose` | muduo-master/muduo/net/TcpConnection.cc:408-421 | disconnected, no interest left |
| `TcpConnection.TcpConnection.ConnectEstablished` | muduo-master/muduo/net/TcpConnection.cc:323-332 | connected, reading |
| `TcpConnection.TcpConnection.ConnectDestroyed` | muduo-master/muduo/net/TcpConnection.cc:334-345 | a connected one becomes disconnected |
| `TcpConnection.TcpConnection.StartReadInLoop` | muduo-master/muduo/net/TcpConnection.cc:298-306 | read interest on, write interest untouched |
| `TcpConnection.TcpConnection.StopReadInLoop` | muduo-master/muduo/net/TcpConnection.cc:313-321 | read interest off, write interest untouched |
| `Channel.OnlyTheMask` | muduo-master/muduo/net/Channel.h:62-65 | setting or clearing a mask settles its bits and leaves every other bit alone |
| `Channel.Channel.EnableWriting` | muduo-master/muduo/net/Channel.h:64 | the write bit is or-ed in; reading as before |
| `Channel.Channel.DisableWriting` | muduo-master/muduo/net/Channel.h:65 | the write bit is masked out; reading as before |
| `Channel.Channel.EnableReading` | muduo-master/muduo/net/Channel.h:62 | the read bits are or-ed in; writing as before |
| `Channel.Channel.DisableReading` | muduo-master/muduo/net/Channel.h:63 | the read bits are masked out; writing as before |
| `Buffer.Buffer.Retrieve` | muduo-master/muduo/net/Buffer.h:113-124 | drops the first bytes |
| `Buffer.Buffer.RetrieveAsString` | muduo-master/muduo/net/Buffer.h:164-170 | returns and drops the first bytes |
| `Buffer.Buffer.Append` | muduo-master/muduo/net/Buffer.h:182-187 | appends the bytes |
| `Buffer.Buffer.EnsureWritableBytes` | muduo-master/muduo/net/Buffer.h:194-201 | makes room and keeps the contents |
| `Buffer.Buffer.MakeSpace` | muduo-master/muduo/net/Buffer.h:390-409 | grows by just what is needed, or moves down when that suffices; contents kept, and the move is reached only with the reader past the cheap-prepend area |
| `Buffer.Buffer.MoveDown` | muduo-master/muduo/net/Buffer.h:400-405 | the overlapping move, byte by byte, keeps the contents |
| `Buffer.Buffer.HasWritten` | muduo-master/muduo/net/Buffer.h:209-213 | the contents grow by the bytes that stand in the tail |
| `Buffer.Buffer.Unwrite` | muduo-master/muduo/net/Buffer.h:215-219 | takes back the last bytes |
| `Buffer.Buffer.Prepend` | muduo-master/muduo/net/Buffer.h:354-360 | puts bytes in front |
| `Buffer.Buffer.Shrink` | muduo-master/muduo/net/Buffer.h:362-369 | a new store of the least size, the same contents, room for the reserve |
| `Buffer.Buffer.ReadFd` | muduo-master/muduo/net/Buffer.cc:25-57 | appends exactly the bytes read, whether or not they spill into the stack buffer |
| `Timers.StepInv` | muduo-master/muduo/net/TimerQueue.cc:116-259 | every step, callbacks and kernel included, keeps the indexes consistent and the alarm set |
| `Timers.SchedulerSafe` | muduo-master/muduo/net/TimerQueue.cc:132-259 | after every run the two indexes list the same timers under their current expirations, none has leaked, and outside handleRead a non-empty queue has a timerfd fired and unread or armed no later than the earliest expiration (or 100 microseconds after arming) |
| `Timers.SizesAgree` | muduo-master/muduo/net/TimerQueue.cc:184-201 | the assertion timers_.size() == activeTimers_.size() |
| `Timers.ExpiredExactly` | muduo-master/muduo/net/TimerQueue.cc:183-202 | getExpired takes out exactly the timers at or before now, in order |
| `Timers.BatchSettles` | muduo-master/muduo/net/TimerQueue.cc:204-222 | after a batch every repeating timer not cancelled is listed again an interval later, every other one deleted |
| `Timers.GoneForever` | muduo-master/muduo/net/TimerQueue.cc:143-222 | over every run, a timer cancelled once listed is never called in a later batch, whatever reuses its address; in the running batch it is called, once, exactly if its turn had not come |
| `Timers.CancelTakesEffect` | muduo-master/muduo/net/TimerQueue.cc:143-181 | a cancel keeps an existing timer from being called in any run from then on exactly when addTimerInLoop has listed it and it is not a timer of the running batch whose turn has not come |
| `Timers.BatchMateStillRuns` | muduo-master/muduo/net/TimerQueue.cc:174-177 | a run in which a callback cancels the next timer of its batch, which is still called |
| `Timers.EarlyCancelForgotten` | muduo-master/muduo/net/TimerQueue.cc:143-161 | a run in which a cancel comes before addTimerInLoop and the timer is called |
| `Timers.StaleCancel` | muduo-master/muduo/net/TimerQueue.cc:143-161 | cancelling an id that names no timer changes no timer |
| `Timers.StaleCancelHarmless` | muduo-master/muduo/net/TimerQueue.cc:143-222 | for the id of a deleted timer every run after the cancel goes as it would have without, even if another timer has the address |
| `TimerLife.TimerLives` | muduo-master/muduo/net/TimerQueue.cc:116-233 | over every run, from the arguments of addTimer alone: listed for its time once added, taken by the first reading at or after it, listed again an interval after that reading if it repeats, deleted otherwise or when cancelled; called once per reading that took it |
| `TimerLife.LifeRun` | muduo-master/muduo/net/TimerQueue.cc:132-233 | the same from any state and any point of the timer's life |
| `TimerLife.SetExactly` | muduo-master/muduo/net/TimerQueue.cc:41-81 | the timerfd is set for the first timer listed, at least 100 microseconds off, by exactly an addition in front of all others and the end of a batch; a reading clears it and nothing else touches it |
| `TimerQueue.Micros` | muduo-master/muduo/net/Timer.h:29-35 | the whole microseconds of an interval |
| `TimerQueue.TimerQueue.AddTimer` | muduo-master/muduo/net/TimerQueue.cc:116-124 | a timer for the given time, with its interval in whole microseconds, repeating exactly if the interval is positive |
| `TimerQueue.TimerQueue.ResetTimerfd` | muduo-master/muduo/net/TimerQueue.cc:41-81 | arms no sooner than 100 microseconds from now |
| `TimerQueue.InsertEntry` | muduo-master/muduo/net/TimerQueue.cc:241-247 | the ordered insertion |
| `TimerQueue.TimerQueue.InsertTimer` | muduo-master/muduo/net/TimerQueue.cc:235-259 | both indexes, and whether the earliest changed |
| `TimerQueue.TimerQueue.AddTimerInLoop` | muduo-master/muduo/net/TimerQueue.cc:132-141 | against Timers.AddInLoop |
| `TimerQueue.TimerQueue.CancelInLoop` | muduo-master/muduo/net/TimerQueue.cc:143-161 | against Timers.Cancel |
| `TimerQueue.TimerQueue.GetExpired` | muduo-master/muduo/net/TimerQueue.cc:183-202 | the loop splits both indexes at now |
| `TimerQueue.TimerQueue.HandleReadBegin` | muduo-master/muduo/net/TimerQueue.cc:163-172 | against Timers.FireBegin |
| `TimerQueue.TimerQueue.RunNext` | muduo-master/muduo/net/TimerQueue.cc:174-177 | calls the next timer of the batch, cancelled or not |
| `TimerQueue.TimerQueue.ResetFirst` | muduo-master/muduo/net/TimerQueue.cc:208-222 | one turn of the loop of reset |
| `TimerQueue.TimerQueue.HandleReadEnd` | muduo-master/muduo/net/TimerQueue.cc:178-233 | against Timers.FireEnd |
| `AsyncLog.StepInv` | muduo-master/muduo/base/AsyncLogging.cc:34-133 | every lock section and every stretch of the consumer between them keeps the lines conserved, the file right and the spares supplied |
| `AsyncLog.LinesConserved` | muduo-master/muduo/base/AsyncLogging.cc:34-133 | over every interleaving: lines settled, in the batch, queued and current are the lines appended, whole and in order; the file holds just those written |
| `AsyncLog.SparesAlwaysThere` | muduo-master/muduo/base/AsyncLogging.cc:69-131 | the assertions of the consumer hold: a null nextBuffer_ means a queued buffer, so both spares can be refilled |
| `AsyncLog.FileThenBuffers` | muduo-master/muduo/base/AsyncLogging.cc:34-133 | while no batch exceeds 25 buffers, file, batch, queue and current buffer are every line appended, in order, unsplit |
| `AsyncLog.ShortLinesKept` | muduo-master/muduo/base/AsyncLogging.cc:34-56 | when all lines are shorter than the large buffer, the lines appended are all the lines handed over |
| `AsyncLog.KeptIffShort` | muduo-master/muduo/base/AsyncLogging.cc:34-56 | a line is stored, behind everything queued and current, exactly when it is shorter than the large buffer, and nowhere otherwise |
| `AsyncLog.BytesThenBuffers` | muduo-master/muduo/base/AsyncLogging.cc:34-133 | the same as FileThenBuffers for the bytes: file and buffers hold the concatenation of the appended lines |
| `AsyncLog.AppendExactly` | muduo-master/muduo/base/AsyncLogging.cc:34-56 | append stays with the current buffer while the line fits with a byte to spare, and otherwise queues it and uses up the next one |
| `AsyncLog.LostExactly` | muduo-master/muduo/base/AsyncLogging.cc:92-133 | over every interleaving the lines not written are exactly those behind the first two buffers of each batch of more than 25 |
| `AsyncLog.TrimNotes` | muduo-master/muduo/base/AsyncLogging.cc:92-101 | such a batch is cut to its first two buffers, with a note of how many went |
| `AsyncLogging.FixedBuffer.Append` | muduo-master/muduo/base/LogStream.h:39-47 | the line's bytes follow the others when there is room with a byte to spare, otherwise nothing changes |
| `AsyncLogging.FixedBuffer.Reset` | muduo-master/muduo/base/LogStream.h:57 | empties it |
| `AsyncLogging.AsyncLogging.Append` | muduo-master/muduo/base/AsyncLogging.cc:34-56 | against AsyncLog.Append, on byte buffers held by pointer, each by exactly one holder; the file's bytes are those written |
| `AsyncLogging.AsyncLogging.TakeBuffers` | muduo-master/muduo/base/AsyncLogging.cc:69-90 | against AsyncLog.Take; the pointers change hands, each buffer still held once, no missing spare dereferenced |
| `AsyncLogging.AsyncLogging.TrimBuffers` | muduo-master/muduo/base/AsyncLogging.cc:92-101 | against AsyncLog.Trim; the buffers cut off are freed |
| `AsyncLogging.AsyncLogging.WriteBuffers` | muduo-master/muduo/base/AsyncLogging.cc:103-107 | the loop appends the bytes of the batch to the file, buffer by buffer |
| `AsyncLogging.AsyncLogging.RecycleBuffers` | muduo-master/muduo/base/AsyncLogging.cc:109-132 | against AsyncLog.Recycle; pop_back is never called on an empty batch, and every buffer kept is held once |
| `Pollers.SwapOut` | muduo-master/muduo/net/poller/PollPoller.cc:112-140 | swapping the last entry into the hole keeps channels_ and pollfds_ in bijection under the -fd-1 encoding and every other interest |
| `Pollers.AppendEntry` | muduo-master/muduo/net/poller/PollPoller.cc:80-94 | a new entry keeps the bijection and adds one interest |
| `Pollers.ReplaceEntry` | muduo-master/muduo/net/poller/PollPoller.cc:95-109 | an update keeps the bijection and changes one interest |
| `Pollers.PollPoller.UpdateChannel` | muduo-master/muduo/net/poller/PollPoller.cc:75-110 | under the assertions of the source: bijection kept, one entry appended or overwritten and marked, the interest of this descriptor only changed |
| `Pollers.PollPoller.RemoveChannel` | muduo-master/muduo/net/poller/PollPoller.cc:112-140 | bijection kept; the descriptor is gone, the other entries go with their channels, and the channel keeps its index |
| `Pollers.PollPoller.AgainIffNegative` | muduo-master/muduo/net/poller/PollPoller.cc:75-110 | a channel not in the poller meets the assertions of updateChannel exactly when its index is negative |
| `Pollers.PollRefusesAgain` | muduo-master/muduo/net/poller/PollPoller.cc:75-140 | a channel used, disabled and removed fails them from then on |
| `Pollers.EPollTakesAgain` | muduo-master/muduo/net/poller/EPollPoller.cc:107-170 | the same channel meets those of EPollPoller |
| `Pollers.PollPoller.FillActiveChannels` | muduo-master/muduo/net/poller/PollPoller.cc:55-73 | returns the channels of all entries with events, in order, each told its events, although it stops counting early |
| `Pollers.NoMoreActive` | muduo-master/muduo/net/poller/PollPoller.cc:60-72 | once as many entries were found as poll counted, no later one has events |
| `Pollers.EPollPoller.Update` | muduo-master/muduo/net/poller/EPollPoller.cc:172-192 | ADD only for absent descriptors, MOD and DEL only for present ones |
| `Pollers.EPollPoller.UpdateChannel` | muduo-master/muduo/net/poller/EPollPoller.cc:107-149 | the index tells whether the kernel has the descriptor; the interest changes at this one only |
| `Pollers.EPollPoller.RemoveChannel` | muduo-master/muduo/net/poller/EPollPoller.cc:151-170 | the descriptor leaves the kernel if it was there |
| `Pollers.Replay` | muduo-master/muduo/net/poller/PollPoller.cc:75-140 | for every run of updates and removals, both pollers hold the same non-empty interests: those of the last updates |
| `Pollers.AfterIsLastUpdate` | muduo-master/muduo/net/poller/EPollPoller.cc:107-170 | the interests after a run are, per descriptor, those of its last update not followed by a removal |
| `Calendar.DateRoundTrip` | muduo-master/muduo/base/Date.cc:20-42 | from a date to its day number and back, for every date from 1 March -4800 on |
| `Calendar.NumberRoundTrip` | muduo-master/muduo/base/Date.cc:20-42 | from a day number to its date and back, for every number from there on |
| `Calendar.Successive` | muduo-master/muduo/base/Date.cc:20-27 | the next calendar day has the next number |
| `Calendar.Monotone` | muduo-master/muduo/base/Date.cc:20-27 | a date is before another exactly when its number is smaller |
| `UtcTime.ToUtcTime` | muduo-master/muduo/base/TimeZone.cc:322-348 | fills the fields of the instant, negative counts included |
| `UtcTime.FillHMS` | muduo-master/muduo/base/TimeZone.cc:76-82 | hours, minutes and seconds of a second of the day |
| `UtcTime.SecondsRoundTrip` | muduo-master/muduo/base/TimeZone.cc:322-363 | fromUtcTime(toUtcTime(t)) == t for every t in the range, before 1970 too |
| `UtcTime.TmRoundTrip` | muduo-master/muduo/base/TimeZone.cc:322-363 | breaking down the instant of a broken-down time names the same instant |
| `UtcTime.YearDay` | muduo-master/muduo/base/TimeZone.cc:342-346 | tm_yday is the place of the day in its year for every year after -4800, and one less in -4800 |
| `UtcTime.WeekDays` | muduo-master/muduo/base/Date.h:96-99 | weekDay is in 0..6 exactly when the day number is at least -1 or 7 divides it plus one |
| `UtcTime.NoWeekDay` | muduo-master/muduo/base/Date.h:96-99 | a date of the range whose weekDay is -4 |
| `UtcTime.Epoch` | muduo-master/muduo/base/Date.cc:44 | second 0 is midnight of Thursday, 1 January 1970, day 2440588 |
| `UtcTime.DaysOf` | muduo-master/muduo/base/TimeZone.cc:335-346 | what toUtcTime fills in: the day of the week counted from that Thursday, the day of the year as the place of the date in it |
| `Codec.Checksum` | muduo-master/muduo/net/protobuf/ProtobufCodecLite.cc:178-182 | the loop computes Adler-32 |
| `Codec.ByteChangeShows` | muduo-master/muduo/net/protobuf/ProtobufCodecLite.cc:178-182 | changing any one byte changes the checksum |
| `Codec.CorruptionRefused` | muduo-master/muduo/net/protobuf/ProtobufCodecLite.cc:184-225 | so a frame with one byte of tag or payload changed is refused with a checksum error |
| `Codec.FillEmptyBuffer` | muduo-master/muduo/net/protobuf/ProtobufCodecLite.cc:42-56 | leaves exactly the frame of the message in the buffer |
| `Codec.OnMessage` | muduo-master/muduo/net/protobuf/ProtobufCodecLite.cc:58-97 | the loop over the buffer is Decode: same events, same rest, same error |
| `Codec.AcceptedIffFits` | muduo-master/muduo/net/protobuf/ProtobufCodecLite.cc:42-97 | the sender checks no limit: the receiver takes the frame exactly when it is within 64 MB, and refuses it with an invalid length otherwise |
| `Codec.WholeThenPartial` | muduo-master/muduo/net/protobuf/ProtobufCodecLite.cc:58-97 | whole frames followed by the start of another give the messages and leave the start |
| `Codec.AnyChunking` | muduo-master/muduo/net/protobuf/ProtobufCodecLite.cc:58-97 | however the stream of frames is cut, after any chunk exactly the complete messages were delivered, in order, and only a proper prefix of the next frame is kept |
| `Codec.RoundTrip` | muduo-master/muduo/net/protobuf/ProtobufCodecLite.cc:42-97 | when all has arrived every message was delivered once, in order, and nothing is left |
| `CodecLaws.AnyFrame` | muduo-master/muduo/net/protobuf/ProtobufCodecLite.cc:184-225 | any complete frame, by its bytes: a wrong checksum, a foreign tag, a payload that does not parse are refused with the error of their kind in this order; anything else is delivered |
| `CodecLaws.TakenFrame` | muduo-master/muduo/net/protobuf/ProtobufCodecLite.cc:70-76 | a frame that the raw callback takes is handed over whole |
| `CodecLaws.EveryFrameIsMade` | muduo-master/muduo/net/protobuf/ProtobufCodecLite.cc:62-82 | every complete frame of acceptable length is of the form the two laws speak of |
| `CodecLaws.WrongLength` | muduo-master/muduo/net/protobuf/ProtobufCodecLite.cc:64-69 | a length below tag and checksum or above 64 MB stops the receiver |
| `CodecLaws.NotYetWhole` | muduo-master/muduo/net/protobuf/ProtobufCodecLite.cc:62-96 | an incomplete frame is waited for |
| `CodecLaws.FrameIsMade` | muduo-master/muduo/net/protobuf/ProtobufCodecLite.cc:42-56 | a frame is its length, tag, payload and their checksum |
| `CodecLaws.ChecksumIs` | muduo-master/muduo/net/protobuf/ProtobufCodecLite.cc:178-182 | Adler-32 in closed form |
| `CodecLaws.BigEndian` | muduo-master/muduo/net/protobuf/ProtobufCodecLite.cc:171-176 | numbers in a frame have their most significant byte first |
| `RawFrames.UpdateTouches` | muduo-master/examples/protobuf/rpcbalancer/balancer_raw.cc:52-62 | only the eight id bytes and the checksum can change |
| `RawFrames.UpdateValidates` | muduo-master/examples/protobuf/rpcbalancer/balancer_raw.cc:52-62 | the updated frame has a valid checksum, whatever its length |
| `RawFrames.Reparses` | muduo-master/examples/protobuf/rpcbalancer/balancer_raw.cc:28-62 | with room for the id, the updated frame parses to the new id |
| `RawFrames.ReparsesIff` | muduo-master/examples/protobuf/rpcbalancer/balancer_raw.cc:28-62 | every id survives exactly in frames whose id ends before the checksum: parse lets up to four bytes of overlap through |
| `RawFrames.ShortFramesCollide` | muduo-master/examples/protobuf/rpcbalancer/balancer_raw.cc:35-61 | in the others ids 0 and 2^56 give the same frame |
| `RawFrames.ShortFrameExists` | muduo-master/examples/protobuf/rpcbalancer/balancer_raw.cc:28-62 | for every tag there is a complete frame that parse lets through and in which some id is lost |
| `RawFrames.UpdateRestores` | muduo-master/examples/protobuf/rpcbalancer/balancer_raw.cc:52-62 | writing the old id back gives back the very frame |
| `RawFrames.EncodedParses` | muduo-master/examples/protobuf/rpcbalancer/balancer_raw.cc:28-50 | the frame of every request and response is recognised, with its id |
| `RawFrames.ParsedIsEncoded` | muduo-master/examples/protobuf/rpcbalancer/balancer_raw.cc:28-50 | what is recognised, with room for an id, is the frame of such a message |
| `RawFrames.LittleEndian` | muduo-master/examples/protobuf/rpcbalancer/balancer_raw.cc:42-45 | ids have their least significant byte first |
| `RawFrames.RawMessage.Parse` | muduo-master/examples/protobuf/rpcbalancer/balancer_raw.cc:28-50 | against ParseId |
| `RawFrames.RawMessage.UpdateId` | muduo-master/examples/protobuf/rpcbalancer/balancer_raw.cc:52-62 | the two memcpys in place are WithId |
| `RpcBalancer.BackendSession.Send` | muduo-master/examples/protobuf/rpcbalancer/balancer_raw.cc:94-112 | against SendStep |
| `RpcBalancer.BackendSession.OnMessage` | muduo-master/examples/protobuf/rpcbalancer/balancer_raw.cc:165-188 | against ReplyStep |
| `RpcBalancer.BackendSession.OnConnection` | muduo-master/examples/protobuf/rpcbalancer/balancer_raw.cc:126-142 | only the connection changes; outstanding requests stay |
| `RpcBalancer.RunInv` | muduo-master/examples/protobuf/rpcbalancer/balancer_raw.cc:94-188 | every step keeps the invariant between outstanding ids and forwarded requests |
| `RpcBalancer.RepliesFindTheirClient` | muduo-master/examples/protobuf/rpcbalancer/balancer_raw.cc:94-188 | in every run a delivered reply answers a request of that client, came under its forwarded id, carries the original id back, and no request is answered twice; 64-bit wrap-around included |
| `RpcBalancer.ForwardedUnderFreshId` | muduo-master/examples/protobuf/rpcbalancer/balancer_raw.cc:94-112 | what the backend sees of the k-th request reads as the id kept for it |
| `RpcBalancer.OutstandingUnanswered` | muduo-master/examples/protobuf/rpcbalancer/balancer_raw.cc:165-188 | a reply to an outstanding id is delivered to its client if that is still there |
| `RpcBalancer.AssertionHolds` | muduo-master/examples/protobuf/rpcbalancer/balancer_raw.cc:100-102 | the assertion in send cannot fail in the first 2^64 - 2 steps, and ids do not repeat |
| `BalancerLaws.ForwardedExactly` | muduo-master/examples/protobuf/rpcbalancer/balancer_raw.cc:94-112 | over every run, from the messages alone: every request that comes while the backend is connected is forwarded, in order, and nothing else |
| `BalancerLaws.OutstandingExactly` | muduo-master/examples/protobuf/rpcbalancer/balancer_raw.cc:94-188 | the session keeps, under each id, exactly the request that went out under it and has had no reply since |
| `BalancerLaws.ReplyExactly` | muduo-master/examples/protobuf/rpcbalancer/balancer_raw.cc:165-188 | a reply goes to the client whose request is open under its id, with that request's own id, if the client is still there; otherwise nowhere |
| `BalancerLaws.OnlyRepliesDeliver` | muduo-master/examples/protobuf/rpcbalancer/balancer_raw.cc:94-142 | nothing else is sent to a client |
| `Memcache.OneMapForAll` | muduo-master/examples/memcached/server/MemcacheServer.cc:44-155 | over every interleaving of requests on the 4096 shards, each answers as a single map would, in the order they finish, and the shards hold that map |
| `Memcache.RunInv` | muduo-master/examples/memcached/server/MemcacheServer.cc:44-155 | every lock entry and release keeps the refinement and the token order |
| `Memcache.TokensUnique` | muduo-master/examples/memcached/server/MemcacheServer.cc:54-123 | no two stored entries share a CAS token; those of one key grow |
| `Memcache.CasExact` | muduo-master/examples/memcached/server/MemcacheServer.cc:119-131 | a cas succeeds exactly when the entry that was given its token is still stored under the key, neither replaced nor deleted since |
| `Memcache.OldTokenNeverWorks` | muduo-master/examples/memcached/server/MemcacheServer.cc:119-131 | the same for a token known to come from a given store, across delete and re-add |
| `Memcache.ApplyRefines` | muduo-master/examples/memcached/server/MemcacheServer.cc:44-155 | changing a key in its own shard is changing it in the single map |
| `Memcache.LineEndsKept` | muduo-master/examples/memcached/server/MemcacheServer.cc:88-113 | over every interleaving, when every value sent ends with CR LF so does every value stored: the assertion of line 110 holds |
| `MemcacheLaws.PutExact` | muduo-master/examples/memcached/server/MemcacheServer.cc:44-138 | in every run, from the requests carried out before: when set, add, replace, append, prepend and cas succeed, what they answer, and value, flags and expiry of what they store |
| `MemcacheLaws.DeleteExact` | muduo-master/examples/memcached/server/MemcacheServer.cc:149-155 | a delete succeeds exactly when the key is there |
| `MemcacheLaws.DeletedIsGone` | muduo-master/examples/memcached/server/MemcacheServer.cc:149-155 | and the key is absent from then on until something is stored under it |
| `MemcacheLaws.GetExact` | muduo-master/examples/memcached/server/MemcacheServer.cc:140-147 | a get answers with what was last stored and not deleted since |
| `MemcacheLaws.ShardsHoldLast` | muduo-master/examples/memcached/server/MemcacheServer.cc:44-155 | the shards hold exactly that, each key in the shard of its hash modulo 4096 |
| `MemcacheLaws.EnterExact` | muduo-master/examples/memcached/server/MemcacheServer.cc:47-54 | inside the lock a token is drawn exactly when something will be stored |
| `MemcacheLaws.FinishExact` | muduo-master/examples/memcached/server/MemcacheServer.cc:44-155 | each request is carried out once, in its own shard |
| `MemcacheServer.MemcacheServer.StoreItem` | muduo-master/examples/memcached/server/MemcacheServer.cc:44-138 | for every complete item, under the assertion of line 110: result, exists flag, token counter and single map are those of the policy |
| `MemcacheServer.MemcacheServer.GetItem` | muduo-master/examples/memcached/server/MemcacheServer.cc:140-147 | what the single map holds |
| `MemcacheServer.MemcacheServer.DeleteItem` | muduo-master/examples/memcached/server/MemcacheServer.cc:149-155 | true exactly when the key was there; it is not any more |
| `MemcacheServer.Joined` | muduo-master/examples/memcached/server/MemcacheServer.cc:88-113 | the item of append and prepend: one value without its line end, then the other, old flags and expiry |
| `MemcacheServer.Item.constructor` | muduo-master/examples/memcached/server/Item.cc:14-31 | holds the key, needs the value |
| `MemcacheServer.Item.Append` | muduo-master/examples/memcached/server/Item.cc:33-39 | the bytes follow those received, the key stays |
| `MemcacheServer.Item.ResetKey` | muduo-master/examples/memcached/server/Item.cc:56-63 | the item becomes a lookup for another key |
| `MemcacheServer.Item.CrlfIsValue` | muduo-master/examples/memcached/server/Item.h:105-110 | endsWithCRLF of a complete item says its value does |
| `SudokuStat.SudokuStat.RecordResponse` | muduo-master/examples/sudoku/stat.h:85-160 | after every call each slot equals a recount of the whole history since reset for its second, count and latency sum, and so do the totals |
| `SudokuStat.SudokuStat.JumpAhead` | muduo-master/examples/sudoku/stat.h:117-138 | the loop moves the window on, or clears it past a gap of 60 seconds |
| `SudokuStat.SudokuStat.Place` | muduo-master/examples/sudoku/stat.h:101-159 | each branch finds or makes the right slot, or discards |
| `SudokuStat.SudokuStat.Reset` | muduo-master/examples/sudoku/stat.h:68-83 | an empty history |
| `SudokuStat.OldestNeverMovesBack` | muduo-master/examples/sudoku/stat.h:101-158 | whatever the clock does, neither end of the window moves back |
| `SudokuStat.SpanShape` | muduo-master/examples/sudoku/stat.h:183-186 | at most 60 seconds, ending at the latest second recorded |
| `SudokuStat.WindowReachesBack` | muduo-master/examples/sudoku/stat.h:101-158 | the window reaches back to where a gap of 60 seconds last started it afresh, or over exactly the last 60 seconds |
| `SudokuStat.CountsAre` | muduo-master/examples/sudoku/stat.h:91-98 | the counts are numbers of responses |
| `SudokuStat.BumpRecounted` | muduo-master/examples/sudoku/stat.h:102-151 | counting into a slot is recounting the longer history |
| `SudokuStat.PushRecounted` | muduo-master/examples/sudoku/stat.h:123-128 | an empty slot is right for a second not seen yet; the ring drops the oldest |
| `IdleWheel.WheelIsClock` | muduo-master/examples/idleconnection/echo.cc:33-78 | in every run the buckets agree with the last-activity times of the connections |
| `IdleWheel.DestroyedOnTime` | muduo-master/examples/idleconnection/echo.h:41-48 | a turn destroys exactly the entries whose last activity is idleSeconds turns ago |
| `IdleWheel.LivesExactlyIdleSeconds` | muduo-master/examples/idleconnection/echo.cc:33-78 | after its last connect or message an entry lives through fewer than idleSeconds turns and dies at exactly that one, whatever other buckets held it |
| `IdleWheel.TooLate` | muduo-master/examples/idleconnection/echo.cc:64-71 | a message after that does not bring it back |
| `IdleWheel.EchoServer.OnConnection` | muduo-master/examples/idleconnection/echo.cc:33-53 | a new entry in the last bucket |
| `IdleWheel.EchoServer.OnMessage` | muduo-master/examples/idleconnection/echo.cc:55-72 | again in the last bucket if it is alive |
| `IdleWheel.EchoServer.OnTimer` | muduo-master/examples/idleconnection/echo.cc:74-78 | shuts down exactly the open connections whose time is up |

## Left out

- `myMuduo` and `muduo_use`: a reduced rewrite and samples of use.
- Sockets, addresses, acceptor, connector, resolver, thread creation, files: thin wrappers over system calls.
- Foreign libraries (protobuf, zlib, curl, hiredis, c-ares, thrift): serializing and parsing a payload is a pair of functions with `parse(serialize(m)) == m`; Adler-32 is written out.
- Machine integers: counters and times are unbounded integers, except 32-bit frame lengths and checksums and 64-bit ids; overflow of `int` in the calendar formulas, of `g_cas` and of the statistics totals is not modelled.
- Floating point: a timer interval is a real number of seconds, cut to whole microseconds.
- Memory addresses: nodes of the solver are array indices, timers have addresses as numbers, stored items are values; use after free is not modelled, except that timer addresses are reused. `nodes_` starts zeroed, where the source leaves it uninitialised until a node is taken.
- `TcpConnection` called from several threads without the loop (the FIXMEs at TcpConnection.cc:105, 196 and 241): every call is one step, and a call from another thread posts a task.
- Connections destroyed while disconnecting, and `TcpServer` destruction.
- The read side of a connection beyond its interest bits and `Buffer.ReadFd`; high-water and write-complete callbacks are recorded, not run.
- Reactor.EventLoop.Loop: follows as many polls as the environment answers; that poll returns again is not claimed. Channels removed by their own handlers, and user code that calls quit() in the loop thread, are in the protocol or left out, not in this method.
- What `stop()` of the logger may leave unwritten: the proofs cover the consumer up to the end of its loop and say where each line then is. Rolling and flushing of the file are not modelled.
- `TimeZone` files, `findLocaltime` and local time.
- `LengthHeaderCodec` of the chat example: the same loop without tag and checksum.
- The choice of a backend, the multiplexer, health checks, and requests still outstanding when a backend goes down (the source keeps them as well).
- The memcached text protocol: sessions hand over complete items. Expiry is not implemented by the source.
- MemcacheServer.Item.ResetKey: for keys that the memory allocated for the item can hold with its value, besides the 250 characters the source asserts; the source copies past the end of a smaller item, and its only caller allocates 252 bytes.
- SudokuStat.SudokuStat.RecordResponse: for clocks past the first second; the source would index an empty ring at second 0. `report`, `recordRequest` and the counters of requests are left out.
- Inspectors, formatting, the process monitor and the other example servers: they would only add easy members.
