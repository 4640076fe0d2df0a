/**
  The AsyncLogging object of muduo/base/AsyncLogging.cc and the FixedBuffer of
  muduo/base/LogStream.h.  The methods are the lock sections and the consumer's
  stretches between them; each does what the step of the same name in AsyncLog
  does, on byte buffers that change hands by pointer and are held once each.
*/
module AsyncLogging {
  import opened AsyncLog
  import opened Buffer
  import opened Options

  /** LogStream.h:25-76: a fixed number of bytes inside the object, all or nothing per append. */
  class FixedBuffer {
    var data: seq<Byte>
    var cur: nat
    /** The appends that made up the bytes. */
    ghost var lines: Lines

    ghost predicate Valid()
      reads this
    {
      cur <= |data| == LARGE && data[..cur] == LinesBytes(lines)
    }

    constructor ()
      ensures Valid() && lines == []
    {
      data := seq(LARGE, _ => 0);
      cur, lines := 0, [];
    }

    function Avail(): int
      reads this
    {
      |data| - cur
    }

    lemma AvailIsLength()
      requires Valid()
      ensures Avail() == AsyncLog.Avail(lines)
    {
      LengthIsBytes(lines);
    }

    /** A line with as many bytes as are free, or more, is dropped. */
    method Append(buf: Line)
      requires Valid()
      modifies this
      ensures Valid() && lines == BufferAppend(old(lines), buf)
    {
      hide LinesBytes, Length;
      AvailIsLength();
      if Avail() > |buf| {
        CopyIn(buf);
        LinesBytesConcat(lines, [buf]);
        LinesBytesOne(buf);
        lines := lines + [buf];
      }
    }

    /** The memcpy and the move of the end, LogStream.h:44-45. */
    method CopyIn(buf: Line)
      requires cur + |buf| <= |data|
      modifies this`cur, this`data
      ensures cur == old(cur) + |buf| && |data| == old(|data|) && data[..cur] == old(data[..cur]) + buf
    {
      for i := 0 to |buf|
        invariant cur == old(cur) && |data| == old(|data|)
        invariant forall k | 0 <= k < cur :: data[k] == old(data[k])
        invariant forall k | 0 <= k < i :: data[cur + k] == buf[k]
      {
        data := data[cur + i := buf[i]];
      }
      cur := cur + |buf|;
    }

    method Reset()
      requires |data| == LARGE
      modifies this`cur, this`lines
      ensures Valid() && lines == []
    {
      cur, lines := 0, [];
    }
  }

  // ---------------------------------------------------------------- who holds which buffer

  /** What a pointer that may be null holds. */
  ghost function Held(b: FixedBuffer?): multiset<FixedBuffer> {
    if b == null then multiset{} else multiset{b}
  }

  /** Every buffer, as often as somebody holds it. */
  ghost function HeldByAll(c: FixedBuffer, n: FixedBuffer?, bs: seq<FixedBuffer>, s1: FixedBuffer?, s2: FixedBuffer?,
                           w: seq<FixedBuffer>): multiset<FixedBuffer>
  {
    multiset{c} + Held(n) + multiset(bs) + Held(s1) + Held(s2) + multiset(w)
  }

  /** Queueing the current buffer c and putting n in its place. */
  lemma QueueHolds(c: FixedBuffer, n: FixedBuffer, bs: seq<FixedBuffer>, s1: FixedBuffer?, s2: FixedBuffer?,
                   w: seq<FixedBuffer>)
    ensures HeldByAll(n, null, bs + [c], s1, s2, w) == HeldByAll(c, n, bs, s1, s2, w)
    ensures HeldByAll(n, null, bs + [c], s1, s2, w) == HeldByAll(c, null, bs, s1, s2, w) + multiset{n}
  {
  }

  ghost function LinesIn(b: FixedBuffer?): Option<Lines>
    reads b
  {
    if b == null then None else Some(b.lines)
  }

  ghost function LinesOfAll(bs: seq<FixedBuffer>): seq<Lines>
    reads bs
  {
    seq(|bs|, i requires 0 <= i < |bs| reads bs => bs[i].lines)
  }

  lemma AllSnoc(bs: seq<FixedBuffer>, b: FixedBuffer)
    ensures LinesOfAll(bs + [b]) == LinesOfAll(bs) + [b.lines]
  {
  }

  ghost predicate AllValid(bufs: set<FixedBuffer>)
    reads bufs
  {
    forall b | b in bufs :: b.Valid()
  }

  lemma OneMore(bufs: set<FixedBuffer>, b: FixedBuffer)
    requires b !in bufs && AllValid(bufs) && b.Valid()
    ensures multiset(bufs + {b}) == multiset(bufs) + multiset{b} && AllValid(bufs + {b})
  {
  }

  lemma FourHeld(a: FixedBuffer, b: FixedBuffer, c: FixedBuffer, d: FixedBuffer)
    requires a != b && a != c && a != d && b != c && b != d && c != d
    requires a.Valid() && b.Valid() && c.Valid() && d.Valid()
    ensures HeldByAll(a, b, [], c, d, []) == multiset({a, b, c, d}) && AllValid({a, b, c, d})
    ensures LinesOfAll([]) == [] && FileBytes([]) == []
  {
  }

  /** Whoever is still held was held once before. */
  lemma StillHeld(bufs: set<FixedBuffer>, m: multiset<FixedBuffer>)
    requires AllValid(bufs) && m <= multiset(bufs)
    ensures var r := set b | b in m; m == multiset(r) && r <= bufs && AllValid(r)
  {
  }

  lemma NextHolds(c: FixedBuffer, bs: seq<FixedBuffer>, s1: FixedBuffer?, s2: FixedBuffer?, w: seq<FixedBuffer>)
    ensures HeldByAll(c, s2, bs, s1, null, w) == HeldByAll(c, null, bs, s1, s2, w)
  {
  }

  /** The consumer's exchange. */
  lemma TakeHolds(c: FixedBuffer, n: FixedBuffer?, bs: seq<FixedBuffer>, s1: FixedBuffer, s2: FixedBuffer?)
    ensures HeldByAll(s1, n, [], null, s2, bs + [c]) == HeldByAll(c, n, bs, s1, s2, [])
  {
  }

  /** Fewer buffers in the batch are fewer buffers held. */
  lemma FewerHeld(c: FixedBuffer, n: FixedBuffer?, bs: seq<FixedBuffer>, s1: FixedBuffer?, s2: FixedBuffer?,
                  w: seq<FixedBuffer>, k: nat)
    requires k <= |w|
    ensures HeldByAll(c, n, bs, s1, s2, w[..k]) <= HeldByAll(c, n, bs, s1, s2, w)
  {
    assert w == w[..k] + w[k..];
  }

  /** The last buffer of the batch becomes a spare. */
  lemma SpareHolds(c: FixedBuffer, n: FixedBuffer?, bs: seq<FixedBuffer>, s1: FixedBuffer?, s2: FixedBuffer?,
                   w: seq<FixedBuffer>)
    requires w != []
    ensures var k := |w| - 1;
      && (s1 == null ==> HeldByAll(c, n, bs, w[k], s2, w[..k]) == HeldByAll(c, n, bs, s1, s2, w))
      && (s2 == null ==> HeldByAll(c, n, bs, s1, w[k], w[..k]) == HeldByAll(c, n, bs, s1, s2, w))
  {
    var x, front := w[|w| - 1], w[..|w| - 1];
    assert w == front + [x];
    MovedHolds(multiset{c} + Held(n) + multiset(bs), Held(s1), Held(s2), multiset(front), multiset{x});
  }

  lemma MovedHolds(a: multiset<FixedBuffer>, s1: multiset<FixedBuffer>, s2: multiset<FixedBuffer>,
                   w: multiset<FixedBuffer>, x: multiset<FixedBuffer>)
    ensures s1 == multiset{} ==> a + x + s2 + w == a + s1 + s2 + (w + x)
    ensures s2 == multiset{} ==> a + s1 + x + w == a + s1 + s2 + (w + x)
  {
  }

  lemma AllNone()
    ensures LinesOfAll([]) == []
  {
  }

  lemma AllSlice(bs: seq<FixedBuffer>, k: nat)
    requires k <= |bs|
    ensures |LinesOfAll(bs)| == |bs| && LinesOfAll(bs[..k]) == LinesOfAll(bs)[..k]
    ensures forall i | 0 <= i < |bs| :: LinesOfAll(bs)[i] == bs[i].lines
  {
  }

  /** All the remaining writes of a batch. */
  function WriteRest(g: Log): Log
    requires g.pc.Writing?
    decreases |g.batch| - g.pc.i
  {
    if g.pc.i < |g.batch| then WriteRest(WriteBuffer(g)) else g
  }

  class AsyncLogging {
    var currentBuffer: FixedBuffer
    var nextBuffer: FixedBuffer?
    var buffers: seq<FixedBuffer>
    var newBuffer1: FixedBuffer?
    var newBuffer2: FixedBuffer?
    var buffersToWrite: seq<FixedBuffer>
    var output: seq<Byte>
    ghost var file: seq<Out>
    ghost var discarded: seq<Lines>
    ghost var pc: Pc
    ghost var appended: seq<Line>
    ghost var settled: seq<(Line, bool)>
    ghost var bufs: set<FixedBuffer>

    ghost function Owned(): multiset<FixedBuffer>
      reads this
    {
      HeldByAll(currentBuffer, nextBuffer, buffers, newBuffer1, newBuffer2, buffersToWrite)
    }

    /** Each buffer is held once and in order, and the file's bytes are what was written. */
    ghost predicate Valid()
      reads this, bufs
    {
      Owned() == multiset(bufs) && AllValid(bufs) && output == FileBytes(file)
    }

    ghost function Abs(): Log
      reads this, currentBuffer, nextBuffer, newBuffer1, newBuffer2, buffers, buffersToWrite
    {
      Log(currentBuffer.lines, LinesIn(nextBuffer), LinesOfAll(buffers), LinesIn(newBuffer1), LinesIn(newBuffer2),
          LinesOfAll(buffersToWrite), discarded, pc, file, appended, settled)
    }

    /** AsyncLogging.cc:14-32 and 62-68. */
    constructor ()
      ensures Valid() && fresh(bufs) && Abs() == START
    {
      hide FileBytes, LinesBytes, HeldByAll, LinesOfAll, AllValid;
      var b1 := new FixedBuffer();
      var b2 := new FixedBuffer();
      var b3 := new FixedBuffer();
      var b4 := new FixedBuffer();
      FourHeld(b1, b2, b3, b4);
      currentBuffer, nextBuffer, buffers := b1, b2, [];
      newBuffer1, newBuffer2, buffersToWrite, output := b3, b4, [], [];
      file, discarded, pc, appended, settled := [], [], Head, [], [];
      bufs := {b1, b2, b3, b4};
    }

    /** AsyncLogging.cc:34-56. */
    method Append(logline: Line)
      requires Valid()
      modifies this, bufs
      ensures Valid() && fresh(bufs - old(bufs)) && Abs() == AsyncLog.Append(old(Abs()), logline)
    {
      hide LinesOfAll, FileBytes, LinesBytes, Length, HeldByAll, AllValid;
      CurrentIsMine();
      currentBuffer.AvailIsLength();
      if currentBuffer.Avail() > |logline| {
        PutInCurrent(logline);
      } else {
        QueueCurrent();
        CurrentIsMine();
        PutInCurrent(logline);
      }
      if |logline| < LARGE {
        appended := appended + [logline];
      }
    }

    lemma CurrentIsMine()
      requires Valid()
      ensures currentBuffer in bufs && currentBuffer.Valid()
      ensures currentBuffer !in buffers && currentBuffer !in buffersToWrite
      ensures currentBuffer != nextBuffer && currentBuffer != newBuffer1 && currentBuffer != newBuffer2
    {
      assert currentBuffer in Owned();
      assert Owned()[currentBuffer] == 1;
    }

    /** AsyncLogging.cc:39 and 53. */
    method PutInCurrent(logline: Line)
      requires Valid()
      modifies currentBuffer
      ensures Valid() && Abs() == old(Abs()).(current := BufferAppend(old(currentBuffer.lines), logline))
    {
      hide LinesBytes, FileBytes, HeldByAll, LinesOfAll;
      CurrentIsMine();
      currentBuffer.Append(logline);
    }

    /** AsyncLogging.cc:43-52: the current buffer is queued, and the next one or a new one takes its place. */
    method QueueCurrent()
      requires Valid()
      modifies this`buffers, this`currentBuffer, this`nextBuffer, this`bufs
      ensures Valid() && fresh(bufs - old(bufs))
      ensures var g := old(Abs());
        Abs() == g.(buffers := g.buffers + [g.current], next := None,
                    current := if g.next.Some? then g.next.value else [])
    {
      if nextBuffer != null {
        UseNext();
      } else {
        UseNew();
      }
    }

    method UseNext()
      requires Valid() && nextBuffer != null
      modifies this`buffers, this`currentBuffer, this`nextBuffer
      ensures Valid()
      ensures var g := old(Abs());
        Abs() == g.(buffers := g.buffers + [g.current], next := None, current := old(nextBuffer).lines)
    {
      hide FileBytes, LinesBytes, HeldByAll, LinesOfAll, AllValid;
      QueueHolds(currentBuffer, nextBuffer, buffers, newBuffer1, newBuffer2, buffersToWrite);
      AllSnoc(buffers, currentBuffer);
      buffers, currentBuffer, nextBuffer := buffers + [currentBuffer], nextBuffer, null;
    }

    method UseNew()
      requires Valid() && nextBuffer == null
      modifies this`buffers, this`currentBuffer, this`bufs
      ensures Valid() && fresh(bufs - old(bufs))
      ensures var g := old(Abs()); Abs() == g.(buffers := g.buffers + [g.current], current := [])
    {
      hide FileBytes, LinesBytes, HeldByAll, LinesOfAll, AllValid;
      var b := new FixedBuffer();
      QueueHolds(currentBuffer, b, buffers, newBuffer1, newBuffer2, buffersToWrite);
      AllSnoc(buffers, currentBuffer);
      OneMore(bufs, b);
      buffers, currentBuffer, bufs := buffers + [currentBuffer], b, bufs + {b};
    }

    /** AsyncLogging.cc:75-88; the asserts of lines 71-73 are what Inv says of Head. */
    method TakeBuffers()
      requires Valid() && Inv(Abs()) && pc.Head?
      modifies this
      ensures Valid() && bufs == old(bufs) && Abs() == Take(old(Abs())) && Inv(Abs()) && |buffersToWrite| > 0
    {
      hide Inv, FileBytes, LinesBytes, HeldByAll, LinesOfAll, AllValid;
      TakeInv(Abs());
      HeadReady(Abs());
      AllSlice(buffersToWrite, 0);
      assert newBuffer1 != null && newBuffer2 != null && buffersToWrite == [];
      Exchange();
      if nextBuffer == null {
        GiveNext();
      }
      pc := Taken;
    }

    /** AsyncLogging.cc:81-83. */
    method Exchange()
      requires Valid() && newBuffer1 != null && buffersToWrite == []
      modifies this`buffers, this`currentBuffer, this`newBuffer1, this`buffersToWrite
      ensures Valid() && |buffersToWrite| > 0
      ensures var g := old(Abs());
        Abs() == g.(batch := g.buffers + [g.current], buffers := [], spare1 := None, current := g.spare1.value)
    {
      hide FileBytes, LinesBytes, HeldByAll, LinesOfAll, AllValid;
      TakeHolds(currentBuffer, nextBuffer, buffers, newBuffer1, newBuffer2);
      AllSnoc(buffers, currentBuffer);
      AllNone();
      buffers := buffers + [currentBuffer];
      currentBuffer, newBuffer1 := newBuffer1, null;
      buffersToWrite, buffers := buffers, buffersToWrite;
    }

    /** AsyncLogging.cc:84-87. */
    method GiveNext()
      requires Valid() && nextBuffer == null
      modifies this`nextBuffer, this`newBuffer2
      ensures Valid() && Abs() == old(Abs()).(next := old(Abs()).spare2, spare2 := None)
    {
      hide FileBytes, LinesBytes, HeldByAll, LinesOfAll, AllValid;
      NextHolds(currentBuffer, buffers, newBuffer1, newBuffer2, buffersToWrite);
      nextBuffer, newBuffer2 := newBuffer2, null;
    }

    /** The batch is cut to its first k buffers and the others are freed. */
    method KeepFirst(k: nat)
      requires Valid() && k <= |buffersToWrite|
      modifies this`buffersToWrite, this`bufs
      ensures Valid() && bufs <= old(bufs) && buffersToWrite == old(buffersToWrite)[..k]
      ensures Abs() == old(Abs()).(batch := old(Abs()).batch[..k])
    {
      hide FileBytes, LinesBytes, HeldByAll, LinesOfAll, AllValid;
      FewerHeld(currentBuffer, nextBuffer, buffers, newBuffer1, newBuffer2, buffersToWrite, k);
      AllSlice(buffersToWrite, k);
      buffersToWrite := buffersToWrite[..k];
      StillHeld(bufs, Owned());
      bufs := set b | b in Owned();
    }

    /** AsyncLogging.cc:92-101; note is the text that says so in the file. */
    method TrimBuffers(note: seq<Byte>)
      requires Valid() && Inv(Abs()) && pc.Taken?
      modifies this
      ensures Valid() && bufs <= old(bufs) && Abs() == Trim(old(Abs()), note) && Inv(Abs())
    {
      hide Inv, FileBytes, LinesBytes, HeldByAll, LinesOfAll, AllValid;
      TrimInv(Abs(), note);
      AllSlice(buffersToWrite, 0);
      pc := Writing(0);
      if |buffersToWrite| > 25 {
        FileBytesNote(file, |buffersToWrite| - 2, note);
        output := output + note;
        file := file + [Dropped(|buffersToWrite| - 2, note)];
        discarded := LinesOfAll(buffersToWrite)[2..];
        KeepFirst(2);
      }
    }

    lemma BatchIsMine(i: nat)
      requires Valid() && i < |buffersToWrite|
      ensures buffersToWrite[i] in bufs && buffersToWrite[i].Valid()
      ensures |LinesOfAll(buffersToWrite)| == |buffersToWrite|
      ensures LinesOfAll(buffersToWrite)[i] == buffersToWrite[i].lines
    {
      assert buffersToWrite[i] in Owned();
    }

    /** AsyncLogging.cc:103-107: every buffer of the batch goes to the file, first to last. */
    method WriteBuffers()
      requires Valid() && Inv(Abs()) && pc == Writing(0)
      modifies this
      ensures Valid() && bufs == old(bufs) && Abs() == WriteRest(old(Abs())) && Inv(Abs())
      ensures pc == Writing(|buffersToWrite|)
    {
      hide Inv, FateOf, Texts, FileBytes, LinesBytes, HeldByAll, LinesOfAll, AllValid;
      ghost var g0 := Abs();
      var i := 0;
      while i < |buffersToWrite|
        invariant Valid() && bufs == old(bufs) && Inv(Abs()) && pc == Writing(i) && i <= |buffersToWrite|
        invariant WriteRest(Abs()) == WriteRest(g0)
      {
        BatchIsMine(i);
        WriteInv(Abs());
        WriteOne(i);
        i := i + 1;
      }
      AllSlice(buffersToWrite, 0);
    }

    method WriteOne(i: nat)
      requires Valid() && pc == Writing(i) && i < |buffersToWrite| && |Abs().batch| == |buffersToWrite|
      modifies this`output, this`file, this`settled, this`pc
      ensures Valid() && Abs() == WriteBuffer(old(Abs()))
    {
      hide FateOf, Texts, FileBytes, LinesBytes, HeldByAll, LinesOfAll, AllValid;
      BatchIsMine(i);
      var b := buffersToWrite[i];
      FileBytesAfter(file, b.lines);
      output := output + b.data[..b.cur];
      file := file + Texts(b.lines);
      settled := settled + FateOf(b.lines, true);
      pc := Writing(i + 1);
    }

    lemma LastIsMine()
      requires Valid() && buffersToWrite != []
      ensures var k := |buffersToWrite| - 1;
        var x := buffersToWrite[k];
        && x in bufs && x.Valid() && x != currentBuffer && x !in buffers && x !in buffersToWrite[..k]
        && x != nextBuffer && x != newBuffer1 && x != newBuffer2
    {
      var k := |buffersToWrite| - 1;
      assert buffersToWrite == buffersToWrite[..k] + [buffersToWrite[k]];
      assert buffersToWrite[k] in Owned();
      assert Owned()[buffersToWrite[k]] == 1;
    }

    /** AsyncLogging.cc:115-121. */
    method RefillFirst()
      requires Valid() && newBuffer1 == null && buffersToWrite != []
      modifies this`newBuffer1, this`buffersToWrite, bufs
      ensures Valid() && buffersToWrite == old(buffersToWrite)[..|old(buffersToWrite)| - 1]
      ensures var g := old(Abs());
        |g.batch| == |old(buffersToWrite)| && Abs() == g.(spare1 := Some([]), batch := g.batch[..|g.batch| - 1])
    {
      hide FileBytes, LinesBytes, HeldByAll, LinesOfAll;
      LastIsMine();
      var k := |buffersToWrite| - 1;
      SpareHolds(currentBuffer, nextBuffer, buffers, newBuffer1, newBuffer2, buffersToWrite);
      AllSlice(buffersToWrite, k);
      newBuffer1, buffersToWrite := buffersToWrite[k], buffersToWrite[..k];
      newBuffer1.Reset();
    }

    /** AsyncLogging.cc:123-129. */
    method RefillSecond()
      requires Valid() && newBuffer2 == null && buffersToWrite != []
      modifies this`newBuffer2, this`buffersToWrite, bufs
      ensures Valid() && buffersToWrite == old(buffersToWrite)[..|old(buffersToWrite)| - 1]
      ensures var g := old(Abs());
        |g.batch| == |old(buffersToWrite)| && Abs() == g.(spare2 := Some([]), batch := g.batch[..|g.batch| - 1])
    {
      hide FileBytes, LinesBytes, HeldByAll, LinesOfAll;
      LastIsMine();
      var k := |buffersToWrite| - 1;
      SpareHolds(currentBuffer, nextBuffer, buffers, newBuffer1, newBuffer2, buffersToWrite);
      AllSlice(buffersToWrite, k);
      newBuffer2, buffersToWrite := buffersToWrite[k], buffersToWrite[..k];
      newBuffer2.Reset();
    }

    /** AsyncLogging.cc:109-132. */
    method RecycleBuffers()
      requires Valid() && Inv(Abs()) && pc == Writing(|buffersToWrite|)
      modifies this, bufs
      ensures Valid() && bufs <= old(bufs) && Abs() == Recycle(old(Abs())) && Inv(Abs())
    {
      hide Inv, Flat, FateOf, FileBytes, LinesBytes, HeldByAll, LinesOfAll, AllValid, Recycle;
      ghost var g := Abs();
      AllSlice(buffersToWrite, 0);
      RecycleInv(g);
      EnoughToRecycle(g);
      RecycleIs(g);
      Refill();
      settled := settled + FateOf(Flat(discarded), false);
      discarded, pc := [], Head;
    }

    /** AsyncLogging.cc:109-131: both spares come from the front of the batch, the rest is freed. */
    method Refill()
      requires Valid() && newBuffer1 == null && |buffersToWrite| >= (if newBuffer2 == null then 2 else 1)
      modifies this`newBuffer1, this`newBuffer2, this`buffersToWrite, this`bufs, bufs
      ensures Valid() && bufs <= old(bufs)
      ensures var g := old(Abs());
        Abs() == g.(spare1 := Some([]), spare2 := if g.spare2.None? then Some([]) else g.spare2, batch := [])
    {
      hide FileBytes, LinesBytes, HeldByAll, LinesOfAll, AllValid;
      if |buffersToWrite| > 2 {
        KeepFirst(2);
      }
      RefillFirst();
      if newBuffer2 == null {
        RefillSecond();
      }
      KeepFirst(0);
    }
  }
}
