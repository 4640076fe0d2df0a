/**
  The double-buffered logger of muduo/base/AsyncLogging.cc: any number of
  producers and one consumer exchange ownership of large buffers under a lock.
  Each step is one lock section, or one stretch of the consumer outside it.
*/
module AsyncLog {
  import opened Buffer
  import opened Options

  type Line = seq<Byte>

  /** detail::kLargeBuffer, the size of each buffer. */
  const LARGE: nat := 4000 * 1000

  /** A FixedBuffer, as the log lines appended to it since it was last reset. */
  type Lines = seq<Line>

  function Length(b: Lines): nat {
    if b == [] then 0 else Length(b[..|b| - 1]) + |b[|b| - 1]|
  }

  function Avail(b: Lines): int {
    LARGE - Length(b)
  }

  /** LogStream.h:39-47: a line that does not fit with a byte to spare is dropped. */
  function BufferAppend(b: Lines, line: Line): Lines {
    if Avail(b) > |line| then b + [line] else b
  }

  /** What the log file holds: lines, and notes about buffers thrown away. */
  datatype Out = Text(line: Line) | Dropped(buffers: nat, note: seq<Byte>)

  datatype Pc =
    | Head                 // at the top of the consumer's loop
    | Taken                // past the lock section
    | Writing(i: nat)      // the first i buffers of the batch are in the file
    | Done                 // the loop has ended

  datatype Log = Log(
    current: Lines,                  // *currentBuffer_
    next: Option<Lines>,             // *nextBuffer_, if there is one
    buffers: seq<Lines>,             // buffers_
    spare1: Option<Lines>,           // *newBuffer1
    spare2: Option<Lines>,           // *newBuffer2
    batch: seq<Lines>,               // buffersToWrite
    discarded: seq<Lines>,           // history: buffers thrown out of this batch
    pc: Pc,
    file: seq<Out>,
    appended: seq<Line>,             // history: every line small enough to be kept
    settled: seq<(Line, bool)>)      // history: lines done with, and whether they were written

  const START := Log([], Some([]), [], Some([]), Some([]), [], [], Head, [], [], [])

  // ---------------------------------------------------------------- steps

  /** AsyncLogging.cc:34-56, one lock section. */
  function Append(g: Log, line: Line): Log {
    var g1 := g.(appended := if |line| < LARGE then g.appended + [line] else g.appended);
    if Avail(g.current) > |line| then g1.(current := BufferAppend(g.current, line))
    else
      var fresh_ := if g.next.Some? then g.next.value else [];
      g1.(buffers := g.buffers + [g.current], next := None, current := BufferAppend(fresh_, line))
  }

  /** AsyncLogging.cc:75-88, the consumer's lock section; a missing spare would be a null buffer. */
  function Take(g: Log): Log {
    var g1 := g.(batch := g.buffers + [g.current], buffers := [], spare1 := None, pc := Taken,
                 current := if g.spare1.Some? then g.spare1.value else []);
    if g.next.None? then g1.(next := g.spare2, spare2 := None) else g1
  }

  function FateOf(b: Lines, written: bool): (r: seq<(Line, bool)>)
    ensures |r| == |b| && forall i | 0 <= i < |b| :: r[i] == (b[i], written)
  {
    seq(|b|, i requires 0 <= i < |b| => (b[i], written))
  }

  function Texts(b: Lines): (r: seq<Out>)
    ensures |r| == |b| && forall i | 0 <= i < |b| :: r[i] == Text(b[i])
  {
    seq(|b|, i requires 0 <= i < |b| => Text(b[i]))
  }

  const MAX_BATCH: nat := 25

  /** AsyncLogging.cc:92-101: a batch that is too long loses all but two buffers; the note says when. */
  function Trim(g: Log, note: seq<Byte>): Log {
    if |g.batch| > MAX_BATCH then
      g.(pc := Writing(0), file := g.file + [Dropped(|g.batch| - 2, note)],
         batch := g.batch[..2], discarded := g.batch[2..])
    else g.(pc := Writing(0))
  }

  /** AsyncLogging.cc:103-107 for one buffer. */
  function WriteBuffer(g: Log): Log
    requires g.pc.Writing? && g.pc.i < |g.batch|
  {
    var b := g.batch[g.pc.i];
    g.(pc := Writing(g.pc.i + 1), file := g.file + Texts(b), settled := g.settled + FateOf(b, true))
  }

  /** AsyncLogging.cc:115-129: a missing spare is replaced by the last buffer, if there is one, reset. */
  function Refill(spare: Option<Lines>, left: seq<Lines>): (Option<Lines>, seq<Lines>) {
    if spare.None? && left != [] then (Some([]), left[..|left| - 1]) else (spare, left)
  }

  /** AsyncLogging.cc:109-132. */
  function Recycle(g: Log): Log {
    var kept := if |g.batch| > 2 then g.batch[..2] else g.batch;
    var (s1, left1) := Refill(g.spare1, kept);
    var (s2, left2) := Refill(g.spare2, left1);
    g.(spare1 := s1, spare2 := s2, batch := [], discarded := [], pc := Head,
       settled := g.settled + FateOf(Flat(g.discarded), false))
  }

  datatype Action = Produce(line: Line) | TakeBatch | TrimBatch(note: seq<Byte>) | WriteOne | RecycleBatch | Stop

  /** The consumer's own order of business; producers may come in anywhere. */
  predicate Enabled(g: Log, a: Action) {
    match a
    case Produce(_) => true
    case TakeBatch => g.pc.Head?
    case TrimBatch(_) => g.pc.Taken?
    case WriteOne => g.pc.Writing? && g.pc.i < |g.batch|
    case RecycleBatch => g.pc.Writing? && g.pc.i == |g.batch|
    case Stop => g.pc.Head?
  }

  function Step(g: Log, a: Action): Log
    requires Enabled(g, a)
  {
    match a
    case Produce(line) => Append(g, line)
    case TakeBatch => Take(g)
    case TrimBatch(note) => Trim(g, note)
    case WriteOne => WriteBuffer(g)
    case RecycleBatch => Recycle(g)
    case Stop => g.(pc := Done)
  }

  predicate Possible(g: Log, run: seq<Action>)
    decreases |run|
  {
    run == [] || (Enabled(g, run[0]) && Possible(Step(g, run[0]), run[1..]))
  }

  function Exec(g: Log, run: seq<Action>): Log
    requires Possible(g, run)
    decreases |run|
  {
    if run == [] then g else Exec(Step(g, run[0]), run[1..])
  }

  // ---------------------------------------------------------------- where every line is

  function Flat(bs: seq<Lines>): seq<Line> {
    if bs == [] then [] else Flat(bs[..|bs| - 1]) + bs[|bs| - 1]
  }

  lemma {:induction false} FlatConcat(a: seq<Lines>, b: seq<Lines>)
    ensures Flat(a + b) == Flat(a) + Flat(b)
  {
    if b == [] {
      assert a + b == a;
    } else {
      var k := |b| - 1;
      assert (a + b)[..|a + b| - 1] == a + b[..k];
      FlatConcat(a, b[..k]);
    }
  }

  lemma FlatOne(b: Lines)
    ensures Flat([b]) == b
  {
    assert [b][..0] == [];
  }

  function LinesOf(fs: seq<(Line, bool)>): (r: seq<Line>)
    ensures |r| == |fs| && forall i | 0 <= i < |fs| :: r[i] == fs[i].0
  {
    seq(|fs|, i requires 0 <= i < |fs| => fs[i].0)
  }

  lemma LinesOfSnoc(fs: seq<(Line, bool)>, b: Lines, w: bool)
    ensures LinesOf(fs + FateOf(b, w)) == LinesOf(fs) + b
  {
  }

  /** The settled lines that were written, and the lines the file holds. */
  function KeptLines(fs: seq<(Line, bool)>): seq<Line> {
    if fs == [] then [] else
      KeptLines(fs[..|fs| - 1]) + (if fs[|fs| - 1].1 then [fs[|fs| - 1].0] else [])
  }

  function FileLines(file: seq<Out>): seq<Line> {
    if file == [] then [] else
      FileLines(file[..|file| - 1]) + (if file[|file| - 1].Text? then [file[|file| - 1].line] else [])
  }

  lemma {:induction false} KeptAfter(fs: seq<(Line, bool)>, b: Lines, w: bool)
    ensures KeptLines(fs + FateOf(b, w)) == KeptLines(fs) + (if w then b else [])
  {
    if b == [] {
      assert fs + FateOf(b, w) == fs;
    } else {
      var k := |b| - 1;
      KeptAfter(fs, b[..k], w);
      assert (fs + FateOf(b, w))[..|fs| + k] == fs + FateOf(b[..k], w);
      assert b == b[..k] + [b[k]];
    }
  }

  lemma {:induction false} FileAfter(file: seq<Out>, b: Lines)
    ensures FileLines(file + Texts(b)) == FileLines(file) + b
  {
    hide FileLines;
    if b == [] {
      assert file + Texts(b) == file;
    } else {
      var k := |b| - 1;
      FileAfter(file, b[..k]);
      var front := file + Texts(b[..k]);
      assert file + Texts(b) == front + [Text(b[k])];
      FileText(front, b[k]);
      assert b == b[..k] + [b[k]];
      assert FileLines(file) + b == FileLines(file) + b[..k] + [b[k]];
    }
  }

  lemma FileText(file: seq<Out>, line: Line)
    ensures FileLines(file + [Text(line)]) == FileLines(file) + [line]
  {
    assert (file + [Text(line)])[..|file|] == file;
  }

  /** The buffers of the batch that are still to be written. */
  function Unwritten(g: Log): seq<Lines> {
    if g.pc.Writing? && g.pc.i <= |g.batch| then g.batch[g.pc.i..] else g.batch
  }

  /** Lines done with, in the consumer's hands, queued, and current: all that was appended, in order. */
  predicate Conserved(g: Log) {
    g.appended == LinesOf(g.settled) + Flat(Unwritten(g)) + Flat(g.discarded) + Flat(g.buffers) + g.current
  }

  predicate FileOk(g: Log) {
    FileLines(g.file) == KeptLines(g.settled)
  }

  // ---------------------------------------------------------------- who owns which buffer

  predicate SpareOk(s: Option<Lines>) {
    s.Some? ==> s.value == []
  }

  /** What holds of the shared buffers whenever the lock is free. */
  predicate SharedOk(g: Log) {
    SpareOk(g.next) && (g.next.None? ==> g.buffers != [])
  }

  predicate ConsumerOk(g: Log) {
    match g.pc
    case Head => g.spare1 == Some([]) && g.spare2 == Some([]) && g.batch == [] && g.discarded == []
    case Taken =>
      g.spare1.None? && SpareOk(g.spare2) && |g.batch| >= (if g.spare2.None? then 2 else 1) && g.discarded == []
    case Writing(i) =>
      g.spare1.None? && SpareOk(g.spare2) && |g.batch| >= (if g.spare2.None? then 2 else 1) && i <= |g.batch|
    case Done => g.batch == [] && g.discarded == []
  }

  predicate Inv(g: Log) {
    Conserved(g) && FileOk(g) && SharedOk(g) && ConsumerOk(g)
  }

  lemma Assoc(a: seq<Line>, b: seq<Line>, c: seq<Line>)
    ensures (a + b) + c == a + (b + c)
  {
  }

  lemma FlatNone()
    ensures Flat([]) == []
  {
  }

  lemma FlatSnoc(bs: seq<Lines>, b: Lines)
    ensures Flat(bs + [b]) == Flat(bs) + b
  {
    assert (bs + [b])[..|bs|] == bs;
  }

  lemma AppendConserves(g: Log, line: Line)
    requires Conserved(g) && SharedOk(g)
    ensures Conserved(Append(g, line))
  {
    hide Flat, LinesOf, Length;
    var r := Append(g, line);
    var front := LinesOf(g.settled) + Flat(Unwritten(g)) + Flat(g.discarded);
    assert Unwritten(r) == Unwritten(g);
    if Avail(g.current) > |line| {
      LengthNat(g.current);
      Assoc(front + Flat(g.buffers), g.current, [line]);
    } else {
      FlatSnoc(g.buffers, g.current);
      LengthNat(g.current);
      Assoc(front, Flat(g.buffers), g.current);
      assert r.current == (if |line| < LARGE then [line] else []);
    }
  }

  lemma LengthNat(b: Lines)
    ensures Avail(b) <= LARGE && Avail([]) == LARGE
  {
  }

  lemma AppendInv(g: Log, line: Line)
    requires Inv(g)
    ensures Inv(Append(g, line))
  {
    hide Conserved, Flat, LinesOf, FileLines, KeptLines, Length;
    AppendConserves(g, line);
  }

  lemma TakeConserves(g: Log)
    requires Conserved(g) && ConsumerOk(g) && g.pc.Head?
    ensures Conserved(Take(g))
  {
    hide Flat, LinesOf;
    FlatNone();
    var none: seq<Line> := [];
    FlatSnoc(g.buffers, g.current);
    var s := LinesOf(g.settled);
    assert s + none + none == s;
    Assoc(s, Flat(g.buffers), g.current);
    assert s + (Flat(g.buffers) + g.current) + none + none + [] == s + (Flat(g.buffers) + g.current);
  }

  lemma TakeInv(g: Log)
    requires Inv(g) && g.pc.Head?
    ensures Inv(Take(g))
  {
    hide Conserved, Flat, LinesOf, FileLines, KeptLines, Length;
    TakeConserves(g);
  }

  lemma TrimInv(g: Log, note: seq<Byte>)
    requires Inv(g) && g.pc.Taken?
    ensures Inv(Trim(g, note))
  {
    hide Conserved, FileLines, KeptLines;
    TrimConserves(g, note);
    if |g.batch| > MAX_BATCH {
      NoticeIsNoLine(g.file, Dropped(|g.batch| - 2, note));
    }
  }

  lemma NoticeIsNoLine(file: seq<Out>, o: Out)
    requires !o.Text?
    ensures FileLines(file + [o]) == FileLines(file)
  {
    assert (file + [o])[..|file|] == file;
  }

  lemma TrimConserves(g: Log, note: seq<Byte>)
    requires Conserved(g) && g.pc.Taken? && g.discarded == []
    ensures Conserved(Trim(g, note))
  {
    hide Flat, LinesOf;
    var r := Trim(g, note);
    assert Unwritten(r) == r.batch && Unwritten(g) == g.batch;
    if |g.batch| > MAX_BATCH {
      var kept, gone := g.batch[..2], g.batch[2..];
      FlatConcat(kept, gone);
      assert g.batch == kept + gone;
      FlatNone();
      Assoc(LinesOf(g.settled), Flat(kept), Flat(gone));
      assert LinesOf(g.settled) + Flat(g.batch) + [] == LinesOf(g.settled) + Flat(g.batch);
    }
  }

  /** AsyncLogging.cc:71-73: what the consumer asserts at the head of its loop. */
  lemma HeadReady(g: Log)
    requires Inv(g) && g.pc.Head?
    ensures g.spare1 == Some([]) && g.spare2 == Some([]) && g.batch == []
  {
  }

  /** AsyncLogging.cc:115-129: there are always buffers left to refill the spares from. */
  lemma EnoughToRecycle(g: Log)
    requires Inv(g) && g.pc.Writing?
    ensures g.spare1.None? && |g.batch| >= (if g.spare2.None? then 2 else 1)
  {
  }

  /** So recycling leaves the consumer with two empty spares and nothing else. */
  lemma RecycleIs(g: Log)
    requires Inv(g) && g.pc.Writing? && g.pc.i == |g.batch|
    ensures Recycle(g) == g.(spare1 := Some([]), spare2 := if g.spare2.None? then Some([]) else g.spare2, batch := [],
                             discarded := [], pc := Head, settled := g.settled + FateOf(Flat(g.discarded), false))
    ensures Recycle(g).spare2 == Some([])
  {
    hide Conserved, FileOk, Flat, FateOf;
  }

  lemma WriteConserves(g: Log)
    requires Conserved(g) && g.pc.Writing? && g.pc.i < |g.batch|
    ensures Conserved(WriteBuffer(g))
  {
    hide Flat, LinesOf, FateOf, Texts;
    var r, b := WriteBuffer(g), g.batch[g.pc.i];
    assert Unwritten(g) == [b] + Unwritten(r);
    FlatConcat([b], Unwritten(r));
    FlatOne(b);
    LinesOfSnoc(g.settled, b, true);
    Assoc(LinesOf(g.settled), b, Flat(Unwritten(r)));
  }

  lemma WriteInv(g: Log)
    requires Inv(g) && g.pc.Writing? && g.pc.i < |g.batch|
    ensures Inv(WriteBuffer(g))
  {
    hide Conserved, Flat, LinesOf, FileLines, KeptLines, FateOf, Texts, Length;
    WriteConserves(g);
    KeptAfter(g.settled, g.batch[g.pc.i], true);
    FileAfter(g.file, g.batch[g.pc.i]);
  }

  lemma RecycleInv(g: Log)
    requires Inv(g) && g.pc.Writing? && g.pc.i == |g.batch|
    ensures Inv(Recycle(g))
  {
    hide Conserved, Flat, LinesOf, FileLines, KeptLines, FateOf, Length;
    RecycleConserves(g);
    KeptAfter(g.settled, Flat(g.discarded), false);
  }

  lemma RecycleConserves(g: Log)
    requires Conserved(g) && g.pc.Writing? && g.pc.i == |g.batch|
    ensures Conserved(Recycle(g))
  {
    hide Flat, LinesOf, FateOf;
    FlatNone();
    var none: seq<Line> := [];
    LinesOfSnoc(g.settled, Flat(g.discarded), false);
    assert Unwritten(g) == [] && Unwritten(Recycle(g)) == [];
    assert LinesOf(g.settled) + none + Flat(g.discarded) == LinesOf(g.settled) + Flat(g.discarded) + none + none;
  }

  lemma StepInv(g: Log, a: Action)
    requires Inv(g) && Enabled(g, a)
    ensures Inv(Step(g, a))
  {
    match a
    case Produce(line) => AppendInv(g, line);
    case TakeBatch => TakeInv(g);
    case TrimBatch(note) => TrimInv(g, note);
    case WriteOne => WriteInv(g);
    case RecycleBatch => RecycleInv(g);
    case Stop =>
  }

  lemma {:induction false} RunInv(g: Log, run: seq<Action>)
    requires Inv(g) && Possible(g, run)
    ensures Inv(Exec(g, run))
    decreases |run|
  {
    if run != [] {
      StepInv(g, run[0]);
      RunInv(Step(g, run[0]), run[1..]);
    }
  }

  // ---------------------------------------------------------------- what it promises

  /**
    After any interleaving, the lines written or thrown away, those in the
    consumer's hands, those queued and those in the current buffer are the lines
    appended, whole and in order; and the file holds just the ones that were written.
  */
  lemma LinesConserved(run: seq<Action>)
    requires Possible(START, run)
    ensures var g := Exec(START, run); Conserved(g) && FileOk(g)
  {
    RunInv(START, run);
  }

  /** The consumer's asserts hold: both spares are there and empty, and a null nextBuffer_ means queued work. */
  lemma SparesAlwaysThere(run: seq<Action>)
    requires Possible(START, run)
    ensures var g := Exec(START, run);
      && (g.pc.Head? ==> g.spare1 == Some([]) && g.spare2 == Some([]) && g.batch == [])
      && (g.pc.Taken? || g.pc.Writing? ==> |g.batch| >= (if g.spare2.None? then 2 else 1))
      && (g.next.None? ==> g.buffers != [])
  {
    RunInv(START, run);
  }

  /** A run in which no batch exceeds 25 buffers. */
  predicate NeverTrims(g: Log, run: seq<Action>)
    requires Possible(g, run)
    decreases |run|
  {
    run == [] || ((run[0].TrimBatch? ==> |g.batch| <= MAX_BATCH) && NeverTrims(Step(g, run[0]), run[1..]))
  }

  predicate NothingLost(g: Log) {
    && g.discarded == [] && (forall i | 0 <= i < |g.settled| :: g.settled[i].1)
    && (forall i | 0 <= i < |g.file| :: g.file[i].Text?)
  }

  lemma {:induction false} NeverTrimsLosesNothing(g: Log, run: seq<Action>)
    requires Inv(g) && NothingLost(g) && Possible(g, run) && NeverTrims(g, run)
    ensures NothingLost(Exec(g, run))
    decreases |run|
  {
    if run != [] {
      StepInv(g, run[0]);
      StepLosesNothing(g, run[0]);
      NeverTrimsLosesNothing(Step(g, run[0]), run[1..]);
    }
  }

  lemma StepLosesNothing(g: Log, a: Action)
    requires NothingLost(g) && Enabled(g, a) && (a.TrimBatch? ==> |g.batch| <= MAX_BATCH)
    ensures NothingLost(Step(g, a))
  {
    var r := Step(g, a);
    if a.RecycleBatch? {
      assert Flat(g.discarded) == [];
      assert r.settled == g.settled;
    }
  }

  lemma {:induction false} AllKept(fs: seq<(Line, bool)>)
    requires forall i | 0 <= i < |fs| :: fs[i].1
    ensures KeptLines(fs) == LinesOf(fs)
  {
    if fs != [] {
      var k := |fs| - 1;
      AllKept(fs[..k]);
      assert LinesOf(fs) == LinesOf(fs[..k]) + [fs[k].0];
    }
  }

  /**
    While no batch exceeds 25 buffers, the file followed by the batch in hand, the
    queued buffers and the current buffer is every line appended, in order, unsplit.
  */
  lemma FileThenBuffers(run: seq<Action>)
    requires Possible(START, run) && NeverTrims(START, run)
    ensures var g := Exec(START, run);
      FileLines(g.file) + Flat(Unwritten(g)) + Flat(g.buffers) + g.current == g.appended
  {
    RunInv(START, run);
    NeverTrimsLosesNothing(START, run);
    var g := Exec(START, run);
    AllKept(g.settled);
    assert FileLines(g.file) + Flat(Unwritten(g)) + [] == FileLines(g.file) + Flat(Unwritten(g));
  }

  /** The lines a run hands to append(). */
  function Produced(run: seq<Action>): seq<Line> {
    if run == [] then [] else (if run[0].Produce? then [run[0].line] else []) + Produced(run[1..])
  }

  predicate AllFit(lines: seq<Line>) {
    forall i | 0 <= i < |lines| :: |lines[i]| < LARGE
  }

  /** When every line is shorter than the large buffer, every line handed to append() is kept. */
  lemma {:induction false} ShortLinesKept(g: Log, run: seq<Action>)
    requires Possible(g, run) && AllFit(Produced(run))
    ensures Exec(g, run).appended == g.appended + Produced(run)
    decreases |run|
  {
    hide Step, Enabled, AllFit;
    if run != [] {
      var g1 := Step(g, run[0]);
      var first := if run[0].Produce? then [run[0].line] else [];
      assert Produced(run) == first + Produced(run[1..]);
      AllFitParts(first, Produced(run[1..]));
      StepAppends(g, run[0]);
      ShortLinesKept(g1, run[1..]);
      Assoc(g.appended, first, Produced(run[1..]));
    }
  }

  lemma AllFitParts(a: seq<Line>, b: seq<Line>)
    requires AllFit(a + b)
    ensures AllFit(a) && AllFit(b)
  {
    assert forall i | 0 <= i < |a| :: (a + b)[i] == a[i];
    assert forall i | 0 <= i < |b| :: (a + b)[|a| + i] == b[i];
  }

  lemma StepAppends(g: Log, a: Action)
    requires Enabled(g, a) && (a.Produce? ==> AllFit([a.line]))
    ensures Step(g, a).appended == g.appended + (if a.Produce? then [a.line] else [])
  {
    assert a.Produce? ==> [a.line][0] == a.line;
  }

  /** A line is stored, at the end of what is queued and current, exactly when it is shorter than a buffer. */
  lemma KeptIffShort(g: Log, line: Line)
    requires Inv(g)
    ensures var r := Append(g, line);
      && (|line| < 4_000_000 <==> Flat(r.buffers) + r.current == Flat(g.buffers) + g.current + [line])
      && (|line| >= 4_000_000 ==> Flat(r.buffers) + r.current == Flat(g.buffers) + g.current)
      && r.batch == g.batch && r.file == g.file
  {
    hide Conserved, Flat, LinesOf, FileLines, KeptLines, Length;
    LengthNat(g.current);
    if Avail(g.current) > |line| {
      Assoc(Flat(g.buffers), g.current, [line]);
    } else {
      FlatSnoc(g.buffers, g.current);
    }
  }

  // ---------------------------------------------------------------- bytes

  function LinesBytes(b: Lines): seq<Byte> {
    if b == [] then [] else LinesBytes(b[..|b| - 1]) + b[|b| - 1]
  }

  function FileBytes(file: seq<Out>): seq<Byte> {
    if file == [] then [] else
      var last := file[|file| - 1];
      FileBytes(file[..|file| - 1]) + (if last.Text? then last.line else last.note)
  }

  lemma {:induction false} LinesBytesConcat(a: Lines, b: Lines)
    ensures LinesBytes(a + b) == LinesBytes(a) + LinesBytes(b)
  {
    if b == [] {
      assert a + b == a;
    } else {
      var k := |b| - 1;
      assert (a + b)[..|a| + k] == a + b[..k];
      LinesBytesConcat(a, b[..k]);
    }
  }

  lemma LinesBytesOne(line: Line)
    ensures LinesBytes([line]) == line
  {
    assert [line][..0] == [];
  }

  lemma {:induction false} LengthIsBytes(b: Lines)
    ensures |LinesBytes(b)| == Length(b)
  {
    if b != [] {
      LengthIsBytes(b[..|b| - 1]);
    }
  }

  /** Writing a buffer's lines is writing its bytes. */
  lemma {:induction false} FileBytesAfter(file: seq<Out>, b: Lines)
    ensures FileBytes(file + Texts(b)) == FileBytes(file) + LinesBytes(b)
  {
    hide FileBytes;
    if b == [] {
      assert file + Texts(b) == file;
    } else {
      var k := |b| - 1;
      FileBytesAfter(file, b[..k]);
      var front := file + Texts(b[..k]);
      assert file + Texts(b) == front + [Text(b[k])];
      FileBytesText(front, b[k]);
    }
  }

  lemma FileBytesText(file: seq<Out>, line: Line)
    ensures FileBytes(file + [Text(line)]) == FileBytes(file) + line
  {
    assert (file + [Text(line)])[..|file|] == file;
  }

  lemma FileBytesNote(file: seq<Out>, n: nat, note: seq<Byte>)
    ensures FileBytes(file + [Dropped(n, note)]) == FileBytes(file) + note
  {
    assert (file + [Dropped(n, note)])[..|file|] == file;
  }

  lemma {:induction false} FileIsItsLines(file: seq<Out>)
    requires forall i | 0 <= i < |file| :: file[i].Text?
    ensures FileBytes(file) == LinesBytes(FileLines(file))
  {
    if file != [] {
      var k := |file| - 1;
      FileIsItsLines(file[..k]);
      LinesBytesConcat(FileLines(file[..k]), [file[k].line]);
      LinesBytesOne(file[k].line);
    }
  }

  /** While no batch exceeds 25 buffers, the bytes on disk and in the buffers are the appended lines' bytes. */
  lemma BytesThenBuffers(run: seq<Action>)
    requires Possible(START, run) && NeverTrims(START, run)
    ensures var g := Exec(START, run);
      FileBytes(g.file) + LinesBytes(Flat(Unwritten(g))) + LinesBytes(Flat(g.buffers)) + LinesBytes(g.current)
        == LinesBytes(g.appended)
  {
    FileThenBuffers(run);
    RunInv(START, run);
    NeverTrimsLosesNothing(START, run);
    var g := Exec(START, run);
    hide Possible, Exec, Flat, FileLines, LinesBytes, FileBytes, Unwritten;
    FileIsItsLines(g.file);
    LinesBytesConcat(FileLines(g.file), Flat(Unwritten(g)));
    LinesBytesConcat(FileLines(g.file) + Flat(Unwritten(g)), Flat(g.buffers));
    LinesBytesConcat(FileLines(g.file) + Flat(Unwritten(g)) + Flat(g.buffers), g.current);
  }

  // ---------------------------------------------------------------- what is lost

  /** The lines that a step throws away: those behind the first two buffers of a batch of more than 25. */
  function LostBy(g: Log, a: Action): seq<Line> {
    if a.TrimBatch? && |g.batch| > 25 then Flat(g.batch[2..]) else []
  }

  function LostIn(g: Log, run: seq<Action>): seq<Line>
    requires Possible(g, run)
    decreases |run|
  {
    if run == [] then [] else LostBy(g, run[0]) + LostIn(Step(g, run[0]), run[1..])
  }

  /** The settled lines that were not written. */
  function LostLines(fs: seq<(Line, bool)>): seq<Line> {
    if fs == [] then [] else
      LostLines(fs[..|fs| - 1]) + (if fs[|fs| - 1].1 then [] else [fs[|fs| - 1].0])
  }

  lemma {:induction false} LostAfter(fs: seq<(Line, bool)>, b: Lines, w: bool)
    ensures LostLines(fs + FateOf(b, w)) == LostLines(fs) + (if w then [] else b)
  {
    if b == [] {
      assert fs + FateOf(b, w) == fs;
    } else {
      var k := |b| - 1;
      LostAfter(fs, b[..k], w);
      assert (fs + FateOf(b, w))[..|fs| + k] == fs + FateOf(b[..k], w);
      assert b == b[..k] + [b[k]];
    }
  }

  lemma LostStep(g: Log, a: Action)
    requires Inv(g) && Enabled(g, a)
    ensures LostLines(Step(g, a).settled) + Flat(Step(g, a).discarded)
      == LostLines(g.settled) + Flat(g.discarded) + LostBy(g, a)
  {
    hide Conserved, FileOk, Flat, LostLines, FateOf, Length;
    FlatNone();
    assert LostLines(g.settled) + Flat(g.discarded) + [] == LostLines(g.settled) + Flat(g.discarded);
    match a
    case WriteOne =>
      LostAfter(g.settled, g.batch[g.pc.i], true);
      assert LostLines(g.settled) + [] == LostLines(g.settled);
    case RecycleBatch =>
      LostAfter(g.settled, Flat(g.discarded), false);
      assert LostLines(g.settled) + Flat(g.discarded) + [] == LostLines(g.settled) + Flat(g.discarded);
    case TrimBatch(note) =>
      assert LostLines(g.settled) + [] + Flat(g.batch[(if |g.batch| > 25 then 2 else 0)..])
        == LostLines(g.settled) + Flat(g.batch[(if |g.batch| > 25 then 2 else 0)..]);
    case _ =>
  }

  /**
    Over every interleaving, the lines not written are exactly those of the buffers
    behind the first two of each batch of more than 25.
  */
  lemma {:induction false} LostExactly(g: Log, run: seq<Action>)
    requires Inv(g) && Possible(g, run)
    ensures var e := Exec(g, run);
      LostLines(e.settled) + Flat(e.discarded) == LostLines(g.settled) + Flat(g.discarded) + LostIn(g, run)
    decreases |run|
  {
    hide Inv, Step, Enabled, Flat, LostLines, LostBy;
    if run != [] {
      LostStep(g, run[0]);
      StepInv(g, run[0]);
      LostExactly(Step(g, run[0]), run[1..]);
      Assoc(LostLines(g.settled) + Flat(g.discarded), LostBy(g, run[0]), LostIn(Step(g, run[0]), run[1..]));
    }
  }

  /** A cut leaves a note of how many buffers went, in the file, before the two kept. */
  lemma TrimNotes(g: Log, note: seq<Byte>)
    requires g.pc.Taken?
    ensures var r := Step(g, TrimBatch(note));
      if |g.batch| > 25
      then r.file == g.file + [Dropped(|g.batch| - 2, note)] && r.batch == [g.batch[0], g.batch[1]]
      else r.file == g.file && r.batch == g.batch
  {
  }

  /** append() stays with the current buffer while the line fits, and otherwise queues it and takes the next one. */
  lemma AppendExactly(g: Log, line: Line)
    requires SharedOk(g)
    ensures var r := Append(g, line);
      if Length(g.current) + |line| < 4_000_000
      then r.current == g.current + [line] && r.buffers == g.buffers && r.next == g.next
      else
        && r.current == (if |line| < 4_000_000 then [line] else [])
        && r.buffers == g.buffers + [g.current] && r.next.None?
  {
    hide Flat;
    LengthNat(g.current);
  }
}
