/**
  What a receiver makes of any bytes (muduo/net/protobuf/ProtobufCodecLite.cc),
  told by the bytes themselves, and the closed forms of the numbers in a frame.
*/
module CodecLaws {
  import opened Buf = Buffer
  import opened Codec
  import opened Options

  // ---------------------------------------------------------------- numbers

  /** Four bytes as a number, the first weighing most. */
  function Weighed(b: Bytes): int
    requires |b| >= 4
  {
    var b0: int, b1: int, b2: int, b3: int := b[0], b[1], b[2], b[3];
    16777216 * b0 + 65536 * b1 + 256 * b2 + b3
  }

  lemma BigEndian(x: U32, b: Bytes)
    requires |b| >= 4
    ensures Weighed(Be32(x)) == x && FromBe32(b) == Weighed(b)
  {
    Be32RoundTrip(x);
    hide Be32;
  }

  /** The signed number with the same 32 bits. */
  lemma SameBits(x: U32)
    ensures -0x8000_0000 <= AsInt32(x) < 0x8000_0000
    ensures AsInt32(x) == x || AsInt32(x) == x - 0x1_0000_0000
  {
  }

  // ---------------------------------------------------------------- the second sum of Adler-32

  function TotalFrom(s: Bytes, i: nat): nat
    requires i <= |s|
    decreases |s| - i
  {
    if i == |s| then 0 else s[i] + TotalFrom(s, i + 1)
  }

  /** Each byte as often as there are bytes from it to the end. */
  function WeightedFrom(s: Bytes, i: nat): nat
    requires i <= |s|
    decreases |s| - i
  {
    if i == |s| then 0 else (|s| - i) * s[i] + WeightedFrom(s, i + 1)
  }

  lemma {:induction false} MoreBytes(s: Bytes, x: Byte, i: nat)
    requires i <= |s|
    ensures TotalFrom(s + [x], i) == TotalFrom(s, i) + x
    ensures WeightedFrom(s + [x], i) == WeightedFrom(s, i) + TotalFrom(s, i) + x
    decreases |s| - i
  {
    var t := s + [x];
    if i == |s| {
      assert t[i] == x && TotalFrom(t, i + 1) == 0 && WeightedFrom(t, i + 1) == 0;
    } else {
      MoreBytes(s, x, i + 1);
      assert t[i] == s[i];
      assert (|s| + 1 - i) * s[i] == (|s| - i) * s[i] + s[i];
    }
  }

  lemma {:induction false} TotalIs(s: Bytes)
    ensures Total(s) == TotalFrom(s, 0)
  {
    if s != [] {
      var k := |s| - 1;
      TotalIs(s[..k]);
      MoreBytes(s[..k], s[k], 0);
      assert s[..k] + [s[k]] == s;
    }
  }

  /** Section 2.2 of RFC 1950: s1 is one plus the sum of the bytes, s2 the sum of the values of s1. */
  lemma {:induction false} SumsAre(s: Bytes)
    ensures Sums(s).0 == (1 + TotalFrom(s, 0)) % 65521
    ensures Sums(s).1 == (|s| + WeightedFrom(s, 0)) % 65521
  {
    hide Sums, Total, TotalFrom;
    FirstSum(s);
    TotalIs(s);
    if s == [] {
      NoBytesSum();
    } else {
      var k := |s| - 1;
      var pre, x := s[..k], s[k];
      assert pre + [x] == s;
      SumsAre(pre);
      FirstSum(pre);
      TotalIs(pre);
      MoreBytes(pre, x, 0);
      SecondSum(s);
      AddMod(k + WeightedFrom(pre, 0), 1 + TotalFrom(s, 0));
    }
  }

  lemma NoBytesSum()
    ensures Sums([]) == (1, 0)
  {
  }

  lemma SecondSum(s: Bytes)
    requires s != []
    ensures Sums(s).1 == (Sums(s[..|s| - 1]).1 + Sums(s).0) % BASE && BASE == 65521
  {
  }

  lemma AddMod(a: nat, b: nat)
    ensures (a % 65521 + b % 65521) % 65521 == (a + b) % 65521
  {
    ModShift(0, a, b % 65521);
    ModShift(0, b, a);
  }

  lemma ChecksumIs(s: Bytes)
    ensures Adler32(s) ==
      (|s| + WeightedFrom(s, 0)) % 65521 * 65536 + (1 + TotalFrom(s, 0)) % 65521
  {
    hide Sums;
    SumsAre(s);
  }

  // ---------------------------------------------------------------- any frame

  /** A frame made of any tag, payload and checksum bytes. */
  function Made(tag: Bytes, payload: Bytes, sum: Bytes): Bytes
    requires |tag| + |payload| + |sum| < 0x1_0000_0000
  {
    Be32(|tag| + |payload| + |sum|) + tag + payload + sum
  }

  /** What fillEmptyBuffer leaves: length, tag, payload and their checksum. */
  lemma FrameIsMade(tag: Bytes, payload: Bytes)
    requires Framable(tag, payload)
    ensures Frame(tag, payload) == Made(tag, payload, Be32(Adler32(tag + payload)))
  {
    hide Be32, Adler32;
  }

  /** The parts that a receiver with a tag of that length sees in such a frame. */
  lemma MadeParts(tag: Bytes, payload: Bytes, sum: Bytes, rest: Bytes)
    requires |sum| == 4 && |tag| + |payload| + 4 <= 64 * 1024 * 1024
    ensures var f := Made(tag, payload, sum);
      var body := f[4..];
      && |f| == |tag| + |payload| + 8 && AsInt32(FromBe32(f + rest)) == |f| - 4
      && (f + rest)[..|f|] == f && (f + rest)[|f|..] == rest
      && body[..|tag|] == tag && body[|tag|..|body| - 4] == payload
      && body[|body| - 4..] == sum && body[..|body| - 4] == tag + payload
  {
    hide Be32, FromBe32;
    var len := |tag| + |payload| + 4;
    var f := Made(tag, payload, sum);
    var buf := f + rest;
    assert buf[..HEADER_LEN] == Be32(len);
    HeaderOnly(buf);
    Be32RoundTrip(len);
    assert f[4..] == tag + payload + sum;
  }

  /** The checksum bytes are right exactly when they spell Adler-32 of tag and payload. */
  lemma SumRight(sum: Bytes, s: Bytes)
    requires |sum| == 4
    ensures FromBe32(sum) == Adler32(s) <==> sum == Be32(Adler32(s))
  {
    hide Adler32;
    var x := Adler32(s);
    Be32RoundTrip(x);
    Be32BytesRoundTrip(sum);
  }

  /**
    A complete frame of acceptable length that the raw callback lets through: a wrong
    checksum, a foreign tag or a payload that does not parse stops the receiver with
    the error of its kind, in this order, and anything else is delivered.
  */
  lemma AnyFrame<M>(c: Codec<M>, tag: Bytes, payload: Bytes, sum: Bytes, rest: Bytes)
    requires |tag| == |c.tag| && |sum| == 4 && |tag| + |payload| + 4 <= 64 * 1024 * 1024
    requires c.raw(Made(tag, payload, sum))
    ensures var buf := Made(tag, payload, sum) + rest;
      Decode(c, buf) ==
        if sum != Be32(Adler32(tag + payload)) then Decoded([], buf, Some(CheckSumError))
        else if tag != c.tag then Decoded([], buf, Some(UnknownMessageType))
        else if c.parse(payload).None? then Decoded([], buf, Some(ParseError))
        else var d := Decode(c, rest); d.(events := [Message(c.parse(payload).value)] + d.events)
  {
    hide Be32, FromBe32, Adler32, AsInt32, Decode;
    var f := Made(tag, payload, sum);
    var buf := f + rest;
    MadeParts(tag, payload, sum, rest);
    SumRight(sum, tag + payload);
    DecodeByTurns(c, buf);
  }

  /** A frame that the raw callback takes is handed over as it is. */
  lemma TakenFrame<M>(c: Codec<M>, tag: Bytes, payload: Bytes, sum: Bytes, rest: Bytes)
    requires |tag| == |c.tag| && |sum| == 4 && |tag| + |payload| + 4 <= 64 * 1024 * 1024
    requires !c.raw(Made(tag, payload, sum))
    ensures var d := Decode(c, rest);
      Decode(c, Made(tag, payload, sum) + rest) == d.(events := [Taken(Made(tag, payload, sum))] + d.events)
  {
    hide Be32, FromBe32, Adler32, AsInt32, Decode;
    MadeParts(tag, payload, sum, rest);
    DecodeByTurns(c, Made(tag, payload, sum) + rest);
  }

  /** Every complete frame of acceptable length is made in this way. */
  lemma EveryFrameIsMade<M>(c: Codec<M>, buf: Bytes) returns (tag: Bytes, payload: Bytes, sum: Bytes, rest: Bytes)
    requires |buf| >= 4 && |c.tag| + 4 <= AsInt32(FromBe32(buf)) <= 64 * 1024 * 1024
    requires |buf| >= 4 + AsInt32(FromBe32(buf))
    ensures |tag| == |c.tag| && |sum| == 4 && |tag| + |payload| + 4 <= 64 * 1024 * 1024
    ensures buf == Made(tag, payload, sum) + rest
  {
    var len, t := AsInt32(FromBe32(buf)), |c.tag|;
    tag, payload, sum := buf[4..4 + t], buf[4 + t..len], buf[len..4 + len];
    rest := buf[4 + len..];
    hide Be32, FromBe32;
    HeaderOnly(buf);
    Be32BytesRoundTrip(buf[..4]);
    assert Made(tag, payload, sum) == buf[..4] + tag + payload + sum;
    assert buf == buf[..4] + buf[4..4 + t] + buf[4 + t..len] + buf[len..4 + len] + buf[4 + len..];
  }

  /** With eight bytes more than its tag, a receiver stops at a length too small or too large ... */
  lemma WrongLength<M>(c: Codec<M>, buf: Bytes)
    requires |buf| >= |c.tag| + 8
    requires AsInt32(FromBe32(buf)) < |c.tag| + 4 || AsInt32(FromBe32(buf)) > 64 * 1024 * 1024
    ensures Decode(c, buf) == Decoded([], buf, Some(InvalidLength))
  {
    hide AsInt32, FromBe32, Outcome;
  }

  /** ... and waits for a frame that has not arrived whole, as it does for its first eight bytes and a tag. */
  lemma NotYetWhole<M>(c: Codec<M>, buf: Bytes)
    requires |buf| < |c.tag| + 8 ||
      (|c.tag| + 4 <= AsInt32(FromBe32(buf)) <= 64 * 1024 * 1024 && |buf| < 4 + AsInt32(FromBe32(buf)))
    ensures Decode(c, buf) == Decoded([], buf, None)
  {
    hide AsInt32, FromBe32, Outcome;
  }
}
