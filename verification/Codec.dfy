/**
  Length-prefixed, checksummed frames: muduo/net/protobuf/ProtobufCodecLite.cc.
  The checksum is Adler-32 (section 2.2 of RFC 1950); how a message becomes its
  payload is a parameter.
*/
module Codec {
  import opened Buf = Buffer
  import opened Options

  type Bytes = seq<Byte>

  // ---------------------------------------------------------------- numbers as bytes

  type U32 = x: int | 0 <= x < 0x1_0000_0000

  /** Four bytes, most significant first. */
  function Be32(x: U32): (r: Bytes)
    ensures |r| == 4
  {
    [x / 0x100_0000, x / 0x1_0000 % 0x100, x / 0x100 % 0x100, x % 0x100]
  }

  function FromBe32(b: Bytes): U32
    requires |b| >= 4
  {
    var b0: int := b[0];
    ((b0 * 0x100 + b[1]) * 0x100 + b[2]) * 0x100 + b[3]
  }

  lemma Be32RoundTrip(x: U32)
    ensures FromBe32(Be32(x)) == x
  {
    var a, b, c := x / 0x100, x / 0x1_0000, x / 0x100_0000;
    assert x == a * 0x100 + x % 0x100;
    assert a / 0x100 == b && a == b * 0x100 + a % 0x100;
    assert b / 0x100 == c && b == c * 0x100 + b % 0x100;
  }

  lemma Be32BytesRoundTrip(b: Bytes)
    requires |b| == 4
    ensures Be32(FromBe32(b)) == b
  {
    var b0: int := b[0];
    var h := b0 * 0x100 + b[1];
    var t := h * 0x100 + b[2];
    var x := t * 0x100 + b[3];
    assert x / 0x100 == t && x % 0x100 == b[3];
    assert x / 0x1_0000 == h && t % 0x100 == b[2];
    assert x / 0x100_0000 == b0 && h % 0x100 == b[1];
  }

  /** The same bits as a signed int32_t. */
  function AsInt32(x: U32): int {
    if x < 0x8000_0000 then x else x - 0x1_0000_0000
  }

  // ---------------------------------------------------------------- Adler-32

  const BASE: int := 65521

  /** The two running sums after the bytes s. */
  function Sums(s: Bytes): (r: (int, int))
    ensures 0 <= r.0 < BASE && 0 <= r.1 < BASE
  {
    if s == [] then (1, 0) else
      var p := Sums(s[..|s| - 1]);
      var a := (p.0 + s[|s| - 1]) % BASE;
      (a, (p.1 + a) % BASE)
  }

  function Adler32(s: Bytes): U32 {
    Sums(s).1 * 65536 + Sums(s).0
  }

  /** The adler32 loop over a buffer. */
  method Checksum(s: Bytes) returns (r: U32)
    ensures r == Adler32(s)
  {
    var a, b := 1, 0;
    assert s[..0] == [];
    for i := 0 to |s|
      invariant (a, b) == Sums(s[..i])
    {
      assert s[..i + 1][..i] == s[..i];
      a := (a + s[i]) % BASE;
      b := (b + a) % BASE;
    }
    assert s[..|s|] == s;
    r := b * 65536 + a;
  }

  function Total(s: Bytes): nat {
    if s == [] then 0 else Total(s[..|s| - 1]) + s[|s| - 1]
  }

  lemma {:induction false} TotalChange(s: Bytes, i: nat, x: Byte)
    requires i < |s|
    ensures Total(s[i := x]) == Total(s) + x - s[i]
  {
    var k := |s| - 1;
    if i == k {
      assert s[i := x][..k] == s[..k];
    } else {
      assert s[i := x][..k] == s[..k][i := x];
      TotalChange(s[..k], i, x);
    }
  }

  /** The first sum is the plain sum of the bytes, and one. */
  lemma {:induction false} FirstSum(s: Bytes)
    ensures Sums(s).0 == (1 + Total(s)) % BASE
  {
    if s != [] {
      var k := |s| - 1;
      FirstSum(s[..k]);
      ModShift(1, Total(s[..k]), s[k]);
    }
  }

  lemma FirstSumShift(s: Bytes, i: nat, x: Byte)
    requires i < |s|
    ensures Sums(s[i := x]).0 == (Sums(s).0 + x - s[i]) % BASE
  {
    hide Sums, Total;
    FirstSum(s);
    FirstSum(s[i := x]);
    TotalChange(s, i, x);
    ModShift(1, Total(s), x - s[i]);
  }

  lemma ModShift(a: int, x: int, d: int)
    ensures ((a + x) % BASE + d) % BASE == (a + x + d) % BASE
  {
    var q := (a + x) / BASE;
    assert a + x == q * BASE + (a + x) % BASE;
    ModMultiple((a + x) % BASE + d, q);
  }

  lemma ModMultiple(y: int, q: int)
    ensures (y + q * BASE) % BASE == y % BASE
  {
  }

  /** No single changed byte goes unnoticed. */
  lemma ByteChangeShows(s: Bytes, i: nat, x: Byte)
    requires i < |s| && s[i] != x
    ensures Adler32(s[i := x]) != Adler32(s)
  {
    hide Sums, Adler32;
    FirstSumShift(s, i, x);
    SmallShift(Sums(s).0, x - s[i]);
    LowHalf(s);
    LowHalf(s[i := x]);
  }

  /** The checksum's low half is the first sum. */
  lemma LowHalf(s: Bytes)
    ensures Adler32(s) % 65536 == Sums(s).0
  {
    hide Sums;
  }

  lemma SmallShift(a: int, d: int)
    requires 0 <= a < BASE && d != 0 && -0x100 < d < 0x100
    ensures (a + d) % BASE != a
  {
    var q := (a + d) / BASE;
    assert a + d == q * BASE + (a + d) % BASE;
    assert -1 <= q <= 1;
  }

  // ---------------------------------------------------------------- frames

  const HEADER_LEN: nat := 4
  const CHECKSUM_LEN: nat := 4
  const MAX_MESSAGE_LEN: nat := 64 * 1024 * 1024

  datatype ErrorCode = InvalidLength | CheckSumError | UnknownMessageType | ParseError

  /** A codec: its tag, its raw callback (true: go on parsing), and how messages are written and read. */
  datatype Codec<!M> = Codec(tag: Bytes, raw: Bytes -> bool, serialize: M -> Bytes, parse: Bytes -> Option<M>)

  /** What onMessage hands on: a parsed message, or a frame the raw callback took. */
  datatype Event<M> = Message(m: M) | Taken(frame: Bytes)

  function Body(tag: Bytes, payload: Bytes): Bytes {
    tag + payload + Be32(Adler32(tag + payload))
  }

  /** Within the limit that the receiver sets. */
  predicate Fits(tag: Bytes, payload: Bytes) {
    |tag| + |payload| + CHECKSUM_LEN <= MAX_MESSAGE_LEN
  }

  /** The length fits into the header, which is all that the sender relies on. */
  predicate Framable(tag: Bytes, payload: Bytes) {
    |tag| + |payload| + CHECKSUM_LEN < 0x1_0000_0000
  }

  function Frame(tag: Bytes, payload: Bytes): Bytes
    requires Framable(tag, payload)
  {
    Be32(|Body(tag, payload)|) + Body(tag, payload)
  }

  /** ProtobufCodecLite.cc:184-190. */
  predicate ValidateChecksum(body: Bytes)
    requires |body| >= CHECKSUM_LEN
  {
    FromBe32(body[|body| - CHECKSUM_LEN..]) == Adler32(body[..|body| - CHECKSUM_LEN])
  }

  datatype Parsed<M> = Good(m: M) | Bad(code: ErrorCode)

  /** ProtobufCodecLite.cc:192-225. */
  function Parse<M>(c: Codec<M>, body: Bytes): Parsed<M>
    requires |body| >= |c.tag| + CHECKSUM_LEN
  {
    if !ValidateChecksum(body) then Bad(CheckSumError)
    else if body[..|c.tag|] != c.tag then Bad(UnknownMessageType)
    else
      match c.parse(body[|c.tag|..|body| - CHECKSUM_LEN])
      case Some(m) => Good(m)
      case None => Bad(ParseError)
  }

  lemma BodyParts(tag: Bytes, payload: Bytes)
    ensures var body := Body(tag, payload);
      && |body| == |tag| + |payload| + CHECKSUM_LEN && ValidateChecksum(body)
      && body[..|tag|] == tag && body[|tag|..|body| - CHECKSUM_LEN] == payload
  {
    var body, sum := Body(tag, payload), Adler32(tag + payload);
    assert body[|body| - CHECKSUM_LEN..] == Be32(sum);
    assert body[..|body| - CHECKSUM_LEN] == tag + payload;
    Be32RoundTrip(sum);
  }

  /** A body with one byte of its tag or payload changed is refused. */
  lemma CorruptionRefused<M>(c: Codec<M>, payload: Bytes, i: nat, x: Byte)
    requires i < |c.tag| + |payload| && Body(c.tag, payload)[i] != x
    ensures Parse(c, Body(c.tag, payload)[i := x]) == Bad(CheckSumError)
  {
    var body, n := Body(c.tag, payload), |c.tag| + |payload|;
    BodyParts(c.tag, payload);
    var bad := body[i := x];
    assert bad[..n] == body[..n][i := x];
    assert bad[n..] == body[n..];
    ByteChangeShows(body[..n], i, x);
  }

  // ---------------------------------------------------------------- onMessage

  datatype Decoded<M> = Decoded(events: seq<Event<M>>, rest: Bytes, error: Option<ErrorCode>)

  /** Whether the buffer starts with a complete frame of acceptable length. */
  predicate Complete(minLen: nat, buf: Bytes) {
    |buf| >= minLen + HEADER_LEN &&
    minLen <= AsInt32(FromBe32(buf)) <= MAX_MESSAGE_LEN && |buf| >= HEADER_LEN + AsInt32(FromBe32(buf))
  }

  function MinLen<M>(c: Codec<M>): nat {
    |c.tag| + CHECKSUM_LEN
  }

  /** What one frame turns into, if it turns into anything. */
  function Outcome<M>(c: Codec<M>, frame: Bytes): Parsed<Event<M>>
    requires |frame| >= HEADER_LEN + MinLen(c)
  {
    if !c.raw(frame) then Good(Taken(frame)) else
      match Parse(c, frame[HEADER_LEN..])
      case Good(m) => Good(Message(m))
      case Bad(e) => Bad(e)
  }

  /** One turn of the loop in onMessage: what is at the front of the buffer. */
  datatype Turn<M> = Wait | Fail(code: ErrorCode) | Deliver(event: Event<M>, size: nat)

  function Front<M>(c: Codec<M>, buf: Bytes): (t: Turn<M>)
    ensures t.Deliver? ==> 0 < t.size <= |buf|
  {
    if |buf| < MinLen(c) + HEADER_LEN then Wait
    else
      var len := AsInt32(FromBe32(buf));
      if len > MAX_MESSAGE_LEN || len < MinLen(c) then Fail(InvalidLength)
      else if |buf| < HEADER_LEN + len then Wait
      else
        match Outcome(c, buf[..HEADER_LEN + len])
        case Good(e) => Deliver(e, HEADER_LEN + len)
        case Bad(code) => Fail(code)
  }

  /** ProtobufCodecLite.cc:58-97: take complete frames off the front until one is missing or wrong. */
  function Decode<M>(c: Codec<M>, buf: Bytes): Decoded<M>
    decreases |buf|
  {
    match Front(c, buf)
    case Wait => Decoded([], buf, None)
    case Fail(code) => Decoded([], buf, Some(code))
    case Deliver(e, n) =>
      var d := Decode(c, buf[n..]);
      d.(events := [e] + d.events)
  }

  lemma DecodeByTurns<M>(c: Codec<M>, buf: Bytes)
    ensures var t := Front(c, buf);
      && (t.Wait? ==> Decode(c, buf) == Decoded([], buf, None))
      && (t.Fail? ==> Decode(c, buf) == Decoded([], buf, Some(t.code)))
      && (t.Deliver? ==>
            var d := Decode(c, buf[t.size..]); Decode(c, buf) == d.(events := [t.event] + d.events))
  {
    hide Front;
  }

  method FrontOf<M>(c: Codec<M>, content: Bytes) returns (t: Turn<M>)
    ensures t == Front(c, content)
  {
    hide Outcome, FromBe32, AsInt32;
    if |content| < |c.tag| + CHECKSUM_LEN + HEADER_LEN {
      return Wait;
    }
    var len := AsInt32(FromBe32(content));
    if len > MAX_MESSAGE_LEN || len < |c.tag| + CHECKSUM_LEN {
      t := Fail(InvalidLength);
    } else if |content| >= HEADER_LEN + len {
      match Outcome(c, content[..HEADER_LEN + len])
      case Good(e) => t := Deliver(e, HEADER_LEN + len);
      case Bad(code) => t := Fail(code);
    } else {
      t := Wait;
    }
  }

  /** The loop of onMessage over the connection's input buffer. */
  method OnMessage<M>(c: Codec<M>, buf: Buf.Buffer) returns (events: seq<Event<M>>, error: Option<ErrorCode>)
    requires buf.Valid() && buf.store.Length >= CHEAP_PREPEND
    modifies buf
    ensures buf.Valid() && buf.store == old(buf.store)
    ensures Decoded(events, buf.Contents(), error) == Decode(c, old(buf.Contents()))
  {
    hide Decode, Front;
    events, error := [], None;
    ghost var all := buf.Contents();
    var more := true;
    while more
      invariant buf.Valid() && buf.store == old(buf.store)
      invariant more ==> error == None && DecodedSoFar(c, all, events, buf.Contents())
      invariant !more ==> Decoded(events, buf.Contents(), error) == Decode(c, all)
      decreases |buf.Contents()|, more
    {
      var content := buf.store[buf.readerIndex..buf.writerIndex];
      var t := FrontOf(c, content);
      NextTurn(c, all, events, content);
      match t
      case Wait => more := false;
      case Fail(code) => error, more := Some(code), false;
      case Deliver(e, n) =>
        events := events + [e];
        buf.Retrieve(n);
    }
  }

  /** The events so far, and then those of the rest, are those of the whole. */
  ghost predicate DecodedSoFar<M>(c: Codec<M>, all: Bytes, events: seq<Event<M>>, rest: Bytes) {
    var d := Decode(c, rest); Decode(c, all) == d.(events := events + d.events)
  }

  lemma NextTurn<M>(c: Codec<M>, all: Bytes, events: seq<Event<M>>, rest: Bytes)
    requires DecodedSoFar(c, all, events, rest)
    ensures var t := Front(c, rest);
      && (t.Wait? ==> Decode(c, all) == Decoded(events, rest, None))
      && (t.Fail? ==> Decode(c, all) == Decoded(events, rest, Some(t.code)))
      && (t.Deliver? ==> DecodedSoFar(c, all, events + [t.event], rest[t.size..]))
  {
    hide Decode, Front;
    DecodeByTurns(c, rest);
    var t := Front(c, rest);
    if t.Deliver? {
      var d := Decode(c, rest[t.size..]);
      assert events + ([t.event] + d.events) == events + [t.event] + d.events;
    } else {
      assert events + [] == events;
    }
  }

  /** ProtobufCodecLite.cc:42-56, on a buffer with nothing in it yet. */
  method FillEmptyBuffer<M>(c: Codec<M>, m: M, buf: Buf.Buffer)
    requires buf.Valid() && buf.store.Length >= CHEAP_PREPEND
    requires buf.Contents() == [] && buf.readerIndex >= CHEAP_PREPEND
    requires Framable(c.tag, c.serialize(m))
    modifies buf, buf.store
    ensures buf.Valid() && buf.Contents() == Frame(c.tag, c.serialize(m))
  {
    hide Adler32, Be32, Sums;
    buf.Append(c.tag);
    buf.Append(c.serialize(m));
    assert buf.Contents() == c.tag + c.serialize(m);
    var sum := Checksum(buf.store[buf.readerIndex..buf.writerIndex]);
    buf.Append(Be32(sum));
    assert buf.Contents() == Body(c.tag, c.serialize(m));
    var len := buf.ReadableBytes();
    buf.Prepend(Be32(len));
  }

  // ---------------------------------------------------------------- round trip under any chunking

  /** The parser undoes the serializer, and no message is too long. */
  ghost predicate Sound<M(!new)>(c: Codec<M>) {
    forall m: M :: c.parse(c.serialize(m)) == Some(m)
  }

  predicate Sendable<M>(c: Codec<M>, ms: seq<M>) {
    forall i | 0 <= i < |ms| :: Fits(c.tag, c.serialize(ms[i]))
  }

  function FrameOf<M>(c: Codec<M>, m: M): Bytes
    requires Fits(c.tag, c.serialize(m))
  {
    Frame(c.tag, c.serialize(m))
  }

  function Frames<M>(c: Codec<M>, ms: seq<M>): Bytes
    requires Sendable(c, ms)
  {
    if ms == [] then [] else FrameOf(c, ms[0]) + Frames(c, ms[1..])
  }

  /** What the receiver should see of a message. */
  function Expected<M>(c: Codec<M>, m: M): Event<M>
    requires Fits(c.tag, c.serialize(m))
  {
    if c.raw(FrameOf(c, m)) then Message(m) else Taken(FrameOf(c, m))
  }

  function AllExpected<M>(c: Codec<M>, ms: seq<M>): seq<Event<M>>
    requires Sendable(c, ms)
  {
    if ms == [] then [] else [Expected(c, ms[0])] + AllExpected(c, ms[1..])
  }

  /** The header of a frame, or of any stretch of it that has a header, gives its length. */
  lemma FrameHeader<M>(c: Codec<M>, m: M, p: Bytes)
    requires Fits(c.tag, c.serialize(m)) && |p| >= HEADER_LEN
    requires p[..HEADER_LEN] == FrameOf(c, m)[..HEADER_LEN]
    ensures AsInt32(FromBe32(p)) == |FrameOf(c, m)| - HEADER_LEN
    ensures MinLen(c) <= |FrameOf(c, m)| - HEADER_LEN <= MAX_MESSAGE_LEN
  {
    BodyParts(c.tag, c.serialize(m));
    var len := |Body(c.tag, c.serialize(m))|;
    assert FrameOf(c, m)[..HEADER_LEN] == Be32(len);
    Be32RoundTrip(len);
    assert FromBe32(p) == FromBe32(p[..HEADER_LEN]);
  }

  /** A proper prefix of a frame stays in the buffer. */
  lemma PartialFrame<M>(c: Codec<M>, m: M, p: Bytes)
    requires Fits(c.tag, c.serialize(m)) && p <= FrameOf(c, m) && |p| < |FrameOf(c, m)|
    ensures Decode(c, p) == Decoded([], p, None)
  {
    if |p| >= MinLen(c) + HEADER_LEN {
      FrameHeader(c, m, p);
    }
  }

  lemma FrameOutcome<M(!new)>(c: Codec<M>, m: M)
    requires Sound(c) && Fits(c.tag, c.serialize(m))
    ensures |FrameOf(c, m)| >= HEADER_LEN + MinLen(c) && Outcome(c, FrameOf(c, m)) == Good(Expected(c, m))
  {
    BodyParts(c.tag, c.serialize(m));
    assert FrameOf(c, m)[HEADER_LEN..] == Body(c.tag, c.serialize(m));
  }

  /** A complete frame is taken off the front and the rest is decoded. */
  lemma WholeFrame<M(!new)>(c: Codec<M>, m: M, rest: Bytes)
    requires Sound(c) && Fits(c.tag, c.serialize(m))
    ensures var d := Decode(c, rest);
      Decode(c, FrameOf(c, m) + rest) == d.(events := [Expected(c, m)] + d.events)
  {
    var f := FrameOf(c, m);
    var buf := f + rest;
    FrameOutcome(c, m);
    hide Sound, Outcome, Expected, FrameOf, FromBe32, AsInt32;
    assert buf[..HEADER_LEN] == f[..HEADER_LEN];
    FrameHeader(c, m, buf);
    assert buf[..|f|] == f && buf[|f|..] == rest;
  }

  /** The sender checks no limit: the receiver takes the frame of a message exactly when it is within 64 MB. */
  lemma AcceptedIffFits<M(!new)>(c: Codec<M>, m: M)
    requires Sound(c) && Framable(c.tag, c.serialize(m))
    ensures var d := Decode(c, Frame(c.tag, c.serialize(m)));
      && (d.error == None <==> Fits(c.tag, c.serialize(m)))
      && (Fits(c.tag, c.serialize(m)) ==> d == Decoded([Expected(c, m)], [], None))
      && (d.error != None ==> d == Decoded([], Frame(c.tag, c.serialize(m)), Some(InvalidLength)))
  {
    var f := Frame(c.tag, c.serialize(m));
    if Fits(c.tag, c.serialize(m)) {
      WholeFrame(c, m, []);
      assert FrameOf(c, m) + [] == f;
    } else {
      hide Be32, FromBe32, Outcome;
      var len := |Body(c.tag, c.serialize(m))|;
      assert f[..HEADER_LEN] == Be32(len);
      Be32RoundTrip(len);
      HeaderOnly(f);
    }
  }

  lemma HeaderOnly(p: Bytes)
    requires |p| >= HEADER_LEN
    ensures FromBe32(p) == FromBe32(p[..HEADER_LEN])
  {
  }

  /** Whole frames followed by a proper prefix of another decode to the messages and leave the prefix. */
  lemma {:induction false} WholeThenPartial<M(!new)>(c: Codec<M>, ms: seq<M>, p: Bytes)
    requires Sound(c) && Sendable(c, ms) && Decode(c, p) == Decoded([], p, None)
    ensures Decode(c, Frames(c, ms) + p) == Decoded(AllExpected(c, ms), p, None)
  {
    hide Sound, Decode, FrameOf, Expected;
    if ms == [] {
      assert Frames(c, ms) + p == p;
    } else {
      WholeThenPartial(c, ms[1..], p);
      WholeFrame(c, ms[0], Frames(c, ms[1..]) + p);
      assert Frames(c, ms) + p == FrameOf(c, ms[0]) + (Frames(c, ms[1..]) + p);
    }
  }

  /** A point in the stream: k whole frames, and part of the next one. */
  ghost predicate At<M>(c: Codec<M>, ms: seq<M>, x: Bytes, k: nat, p: Bytes)
    requires Sendable(c, ms)
  {
    && k <= |ms| && x == Frames(c, ms[..k]) + p
    && (if k == |ms| then p == [] else p <= FrameOf(c, ms[k]) && |p| < |FrameOf(c, ms[k])|)
  }

  lemma {:induction false} FramesConcat<M>(c: Codec<M>, a: seq<M>, b: seq<M>)
    requires Sendable(c, a) && Sendable(c, b)
    ensures Sendable(c, a + b) && Frames(c, a + b) == Frames(c, a) + Frames(c, b)
  {
    hide FrameOf, Fits;
    if a == [] {
      assert a + b == b;
    } else {
      FramesConcat(c, a[1..], b);
      assert (a + b)[1..] == a[1..] + b;
      assert Frames(c, a + b) == FrameOf(c, a[0]) + (Frames(c, a[1..]) + Frames(c, b));
    }
  }

  /** Every prefix of the stream is at some point in it. */
  lemma {:induction false} Locate<M>(c: Codec<M>, ms: seq<M>, x: Bytes) returns (k: nat, p: Bytes)
    requires Sendable(c, ms) && x <= Frames(c, ms)
    ensures At(c, ms, x, k, p)
    decreases |ms|
  {
    hide FrameOf, Fits;
    if ms == [] {
      k, p := 0, [];
    } else {
      var f := FrameOf(c, ms[0]);
      if |x| < |f| {
        k, p := 0, x;
        assert ms[..0] == [];
        assert p <= f;
      } else {
        assert x[..|f|] == f;
        var y := x[|f|..];
        assert y <= Frames(c, ms[1..]);
        var k1, p1 := Locate(c, ms[1..], y);
        k, p := k1 + 1, p1;
        assert ms[..k][1..] == ms[1..][..k1];
        assert x == f + y;
        assert Frames(c, ms[..k]) == f + Frames(c, ms[1..][..k1]);
        assert f + (Frames(c, ms[1..][..k1]) + p) == Frames(c, ms[..k]) + p;
      }
    }
  }

  function Concat(chunks: seq<Bytes>): Bytes {
    if chunks == [] then [] else Concat(chunks[..|chunks| - 1]) + chunks[|chunks| - 1]
  }

  /** Feeding chunks one by one, each appended to what was left over. */
  function Feed<M>(c: Codec<M>, chunks: seq<Bytes>): Decoded<M> {
    if chunks == [] then Decoded([], [], None) else
      var d := Feed(c, chunks[..|chunks| - 1]);
      var e := Decode(c, d.rest + chunks[|chunks| - 1]);
      Decoded(d.events + e.events, e.rest, if d.error.Some? then d.error else e.error)
  }

  lemma {:induction false} ExpectedConcat<M>(c: Codec<M>, a: seq<M>, b: seq<M>)
    requires Sendable(c, a) && Sendable(c, b)
    ensures Sendable(c, a + b) && AllExpected(c, a + b) == AllExpected(c, a) + AllExpected(c, b)
  {
    hide FrameOf, Fits, Expected;
    if a == [] {
      assert a + b == b;
    } else {
      ExpectedConcat(c, a[1..], b);
      assert (a + b)[1..] == a[1..] + b;
    }
  }

  /** A point later in the stream has at least as many whole frames. */
  lemma PointOrder<M>(c: Codec<M>, ms: seq<M>, x: Bytes, y: Bytes, k: nat, p: Bytes, k': nat, p': Bytes)
    requires Sendable(c, ms) && At(c, ms, x, k, p) && At(c, ms, x + y, k', p')
    ensures k <= k'
  {
    hide FrameOf, Fits, Frames;
    if k' < k {
      MoreFrames(c, ms, k', k);
      assert false;
    }
  }

  lemma MoreFrames<M>(c: Codec<M>, ms: seq<M>, j: nat, k: nat)
    requires Sendable(c, ms) && j < k <= |ms|
    ensures |Frames(c, ms[..k])| >= |Frames(c, ms[..j])| + |FrameOf(c, ms[j])|
  {
    hide FrameOf, Fits, Frames;
    assert ms[..k] == ms[..j] + [ms[j]] + ms[j + 1..k];
    FrameAlone(c, ms[j]);
    FramesConcat(c, ms[..j], [ms[j]]);
    FramesConcat(c, ms[..j] + [ms[j]], ms[j + 1..k]);
  }

  /** One more chunk moves from one point of the stream to a later one. */
  lemma NextPoint<M>(c: Codec<M>, ms: seq<M>, x: Bytes, y: Bytes, k: nat, p: Bytes, k': nat, p': Bytes)
    requires Sendable(c, ms) && At(c, ms, x, k, p) && At(c, ms, x + y, k', p')
    ensures k <= k' && p + y == Frames(c, ms[k..k']) + p'
  {
    hide FrameOf, Fits, Frames;
    PointOrder(c, ms, x, y, k, p, k', p');
    assert ms[..k'] == ms[..k] + ms[k..k'];
    FramesConcat(c, ms[..k], ms[k..k']);
    SameTail(Frames(c, ms[..k]), p, y, Frames(c, ms[k..k']), p');
  }

  lemma SameTail(a: Bytes, p: Bytes, y: Bytes, b: Bytes, q: Bytes)
    requires a + p + y == a + b + q
    ensures p + y == b + q
  {
    assert p + y == (a + p + y)[|a|..];
    assert b + q == (a + b + q)[|a|..];
  }

  lemma FrameAlone<M>(c: Codec<M>, m: M)
    requires Fits(c.tag, c.serialize(m))
    ensures Sendable(c, [m]) && Frames(c, [m]) == FrameOf(c, m)
  {
    assert [m][1..] == [];
    assert Frames(c, [m][1..]) == [];
  }

  lemma PointStays<M(!new)>(c: Codec<M>, ms: seq<M>, x: Bytes, k: nat, p: Bytes)
    requires Sendable(c, ms) && At(c, ms, x, k, p)
    ensures Decode(c, p) == Decoded([], p, None)
  {
    if k < |ms| {
      PartialFrame(c, ms[k], p);
    }
  }

  /**
    However the stream is cut into chunks, after any number of them the receiver
    has been handed exactly the messages whose frames are complete, in order, and
    keeps only the beginning of the next frame.
  */
  lemma {:induction false} AnyChunking<M(!new)>(c: Codec<M>, ms: seq<M>, chunks: seq<Bytes>) returns (k: nat, p: Bytes)
    requires Sound(c) && Sendable(c, ms) && Concat(chunks) <= Frames(c, ms)
    ensures At(c, ms, Concat(chunks), k, p) && Feed(c, chunks) == Decoded(AllExpected(c, ms[..k]), p, None)
    decreases |chunks|
  {
    hide Sound, Decode, FrameOf, Fits, Expected, Frames, AllExpected;
    if chunks == [] {
      k, p := Locate(c, ms, []);
      NoBytes(c, ms, k, p);
    } else {
      var n := |chunks| - 1;
      var x, y := Concat(chunks[..n]), chunks[n];
      assert x <= x + y;
      var k0, p0 := AnyChunking(c, ms, chunks[..n]);
      k, p := Locate(c, ms, x + y);
      NextPoint(c, ms, x, y, k0, p0, k, p);
      PointStays(c, ms, x + y, k, p);
      WholeThenPartial(c, ms[k0..k], p);
      ExpectedConcat(c, ms[..k0], ms[k0..k]);
      assert ms[..k] == ms[..k0] + ms[k0..k];
    }
  }

  lemma NoBytes<M>(c: Codec<M>, ms: seq<M>, k: nat, p: Bytes)
    requires Sendable(c, ms) && At(c, ms, [], k, p)
    ensures k == 0 && p == [] && AllExpected(c, ms[..k]) == []
  {
    if k > 0 {
      MoreFrames(c, ms, 0, k);
      assert false;
    }
  }

  /** When the whole stream has arrived, every message has been delivered once and the buffer is empty. */
  lemma RoundTrip<M(!new)>(c: Codec<M>, ms: seq<M>, chunks: seq<Bytes>)
    requires Sound(c) && Sendable(c, ms) && Concat(chunks) == Frames(c, ms)
    ensures Feed(c, chunks) == Decoded(AllExpected(c, ms), [], None)
  {
    hide Sound, Decode, FrameOf, Fits, Expected, AllExpected, Feed, Frames;
    var k, p := AnyChunking(c, ms, chunks);
    NothingMissing(c, ms, k, p);
    assert ms[..k] == ms;
  }

  lemma NothingMissing<M>(c: Codec<M>, ms: seq<M>, k: nat, p: Bytes)
    requires Sendable(c, ms) && At(c, ms, Frames(c, ms), k, p)
    ensures k == |ms|
  {
    hide FrameOf, Fits, Frames;
    assert ms[..|ms|] == ms;
    if k < |ms| {
      MoreFrames(c, ms, k, |ms|);
      assert false;
    }
  }
}
