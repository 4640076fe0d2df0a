/**
  Rewriting the id of a request or reply inside its frame, without decoding it:
  RawMessage of examples/protobuf/rpcbalancer/balancer_raw.cc.
*/
module RawFrames {
  import opened Buffer
  import opened Codec
  import opened Options

  type U64 = x: int | 0 <= x < 0x1_0000_0000_0000_0000

  // ---------------------------------------------------------------- little-endian ids

  function Pow256(n: nat): (r: nat)
    ensures r > 0
  {
    if n == 0 then 1 else 256 * Pow256(n - 1)
  }

  /** The n low bytes of x, least significant first. */
  function LeBytes(x: nat, n: nat): (r: Bytes)
    ensures |r| == n
  {
    if n == 0 then [] else [x % 256] + LeBytes(x / 256, n - 1)
  }

  function FromLe(b: Bytes): nat {
    if b == [] then 0 else b[0] + 256 * FromLe(b[1..])
  }

  lemma {:induction false} FromLeBound(b: Bytes)
    ensures FromLe(b) < Pow256(|b|)
  {
    if b != [] {
      FromLeBound(b[1..]);
    }
  }

  lemma {:induction false} LeRoundTrip(x: nat, n: nat)
    requires x < Pow256(n)
    ensures FromLe(LeBytes(x, n)) == x
  {
    if n > 0 {
      LeRoundTrip(x / 256, n - 1);
      assert LeBytes(x, n)[1..] == LeBytes(x / 256, n - 1);
    }
  }

  lemma {:induction false} LeBytesRoundTrip(b: Bytes)
    ensures LeBytes(FromLe(b), |b|) == b
  {
    if b != [] {
      LeBytesRoundTrip(b[1..]);
      assert b == [b[0]] + b[1..];
      var x: nat := FromLe(b);
      assert x % 256 == b[0] && x / 256 == FromLe(b[1..]);
    }
  }

  /** The low bytes of two numbers that agree modulo 256^n are the same. */
  lemma {:induction false} LeLowBytes(x: nat, q: nat, n: nat, m: nat)
    requires n <= m
    ensures LeBytes(x + q * Pow256(n), m)[..n] == LeBytes(x, m)[..n]
  {
    if n > 0 {
      var p := q * Pow256(n - 1);
      assert q * Pow256(n) == 256 * p;
      assert (x + 256 * p) % 256 == x % 256 && (x + 256 * p) / 256 == x / 256 + p;
      LeLowBytes(x / 256, q, n - 1, m - 1);
      var a, b := LeBytes(x + 256 * p, m), LeBytes(x, m);
      assert a[..n] == [a[0]] + LeBytes(x / 256 + p, m - 1)[..n - 1];
      assert b[..n] == [b[0]] + LeBytes(x / 256, m - 1)[..n - 1];
    }
  }

  // ---------------------------------------------------------------- parse and updateId on values

  /** Where the id stands in a frame: after the header, the tag, the type field and the id field's key. */
  function IdAt(tag: Bytes): nat {
    HEADER_LEN + |tag| + 3
  }

  /** What the codec has already checked before it offers a frame. */
  predicate Offered(tag: Bytes, frame: Bytes) {
    |frame| >= HEADER_LEN + |tag| + CHECKSUM_LEN
  }

  /** The bytes before the id say: this tag, a request or a response, then a fixed64 id. */
  predicate StartsRight(tag: Bytes, frame: Bytes)
    requires |frame| >= IdAt(tag)
  {
    var p := HEADER_LEN + |tag|;
    && frame[HEADER_LEN..p] == tag
    && frame[p] == 0x08 && (frame[p + 1] == 0x01 || frame[p + 1] == 0x02) && frame[p + 2] == 0x11
  }

  /** balancer_raw.cc:28-50: the id, if the frame is one whose id can be rewritten. */
  function ParseId(tag: Bytes, frame: Bytes): Option<U64>
    requires Offered(tag, frame)
  {
    if ValidateChecksum(frame[HEADER_LEN..]) && |frame| >= IdAt(tag) + 8 && StartsRight(tag, frame) then
      var at := IdAt(tag);
      FromLeBound(frame[at..at + 8]);
      Some(FromLe(frame[at..at + 8]))
    else None
  }

  /** The bytes from the i-th on, the k-th counting in units of 256^k. */
  function WeighedLe(b: Bytes, i: nat): nat
    requires i <= |b|
    decreases |b| - i
  {
    if i == |b| then 0 else b[i] * Pow256(i) + WeighedLe(b, i + 1)
  }

  /** An id is read with its least significant byte first. */
  lemma {:induction false} LittleEndian(b: Bytes, i: nat)
    requires i <= |b|
    ensures FromLe(b[i..]) * Pow256(i) == WeighedLe(b, i)
    decreases |b| - i
  {
    if i < |b| {
      LittleEndian(b, i + 1);
      var t := b[i..];
      assert t[1..] == b[i + 1..];
      var more := FromLe(t[1..]);
      Distribute(t[0], more, Pow256(i));
    }
  }

  lemma Distribute(x: nat, y: nat, p: nat)
    ensures (x + 256 * y) * p == x * p + y * (256 * p)
  {
  }

  /** The payload of a request or response: its type, its id, and the other fields. */
  function Message(kind: Byte, id: U64, rest: Bytes): Bytes {
    [0x08, kind, 0x11] + LeBytes(id, 8) + rest
  }

  /** The frame of every request (1) and response (2) is recognised, with its id. */
  lemma EncodedParses(tag: Bytes, header: Bytes, kind: Byte, id: U64, rest: Bytes)
    requires |header| == 4 && (kind == 1 || kind == 2)
    ensures var frame := header + Body(tag, Message(kind, id, rest));
      Offered(tag, frame) && ParseId(tag, frame) == Some(id) && Roomy(tag, frame)
  {
    hide Adler32, Be32, FromBe32, LeBytes, FromLe, ValidateChecksum;
    var payload := Message(kind, id, rest);
    var frame, p := header + Body(tag, payload), 4 + |tag|;
    BodyParts(tag, payload);
    assert frame[4..] == Body(tag, payload);
    assert frame[4..p] == tag;
    assert frame[p] == payload[0] && frame[p + 1] == payload[1] && frame[p + 2] == payload[2];
    assert frame[p + 3..p + 11] == payload[3..11] == LeBytes(id, 8);
    LeRoundTrip(id, 8);
  }

  /** And nothing else with room for an id is: what is recognised is the frame of such a message. */
  lemma ParsedIsEncoded(tag: Bytes, frame: Bytes) returns (kind: Byte, rest: Bytes)
    requires Roomy(tag, frame) && ParseId(tag, frame).Some?
    ensures (kind == 1 || kind == 2) && frame[4..] == Body(tag, Message(kind, ParseId(tag, frame).value, rest))
  {
    hide Adler32, Be32, FromBe32, LeBytes, FromLe;
    var p, n := 4 + |tag|, |frame| - 4;
    kind, rest := frame[p + 1], frame[p + 11..n];
    var id := ParseId(tag, frame).value;
    LeBytesRoundTrip(frame[p + 3..p + 11]);
    var payload := Message(kind, id, rest);
    assert payload == frame[p..n];
    assert tag + payload == frame[4..n];
    var body := frame[4..];
    assert body[|body| - 4..] == frame[n..] && body[..|body| - 4] == frame[4..n];
    Be32BytesRoundTrip(frame[n..]);
    assert body == frame[4..n] + frame[n..];
  }

  /** s with the bytes b written at position at. */
  function Splice(s: Bytes, at: nat, b: Bytes): (r: Bytes)
    requires at + |b| <= |s|
    ensures |r| == |s|
  {
    s[..at] + b + s[at + |b|..]
  }

  /** balancer_raw.cc:52-62: write the id, then the checksum of what precedes the checksum. */
  function WithId(frame: Bytes, at: nat, id: U64): (r: Bytes)
    requires HEADER_LEN <= at && at + 8 <= |frame|
    ensures |r| == |frame|
  {
    var f := Splice(frame, at, LeBytes(id, 8));
    var n := |f| - CHECKSUM_LEN;
    Splice(f, n, Be32(Adler32(f[HEADER_LEN..n])))
  }

  /** Whether the id ends before the checksum starts. */
  predicate Roomy(tag: Bytes, frame: Bytes) {
    |frame| >= IdAt(tag) + 8 + CHECKSUM_LEN
  }

  /** Only the id's bytes and the checksum's can change. */
  lemma UpdateTouches(frame: Bytes, at: nat, id: U64, i: nat)
    requires HEADER_LEN <= at && at + 8 <= |frame| && i < |frame| - CHECKSUM_LEN && !(at <= i < at + 8)
    ensures WithId(frame, at, id)[i] == frame[i]
  {
    hide Adler32, Be32, LeBytes;
  }

  /** The updated frame validates, whatever its length. */
  lemma UpdateValidates(frame: Bytes, at: nat, id: U64)
    requires HEADER_LEN <= at && at + 8 <= |frame|
    ensures ValidateChecksum(WithId(frame, at, id)[HEADER_LEN..])
  {
    hide Adler32, Be32, LeBytes, FromBe32;
    var f := Splice(frame, at, LeBytes(id, 8));
    var n := |f| - CHECKSUM_LEN;
    var sum := Adler32(f[HEADER_LEN..n]);
    var body := WithId(frame, at, id)[HEADER_LEN..];
    assert body[|body| - CHECKSUM_LEN..] == Be32(sum);
    assert body[..|body| - CHECKSUM_LEN] == f[HEADER_LEN..n];
    Be32RoundTrip(sum);
  }

  lemma UpdateStartsRight(tag: Bytes, frame: Bytes, id: U64)
    requires |frame| >= IdAt(tag) + 8 && StartsRight(tag, frame)
    ensures StartsRight(tag, WithId(frame, IdAt(tag), id))
  {
    hide Adler32, Be32, LeBytes, WithId;
    var g, p := WithId(frame, IdAt(tag), id), HEADER_LEN + |tag|;
    forall i: nat | i < p + 3
      ensures g[i] == frame[i]
    {
      UpdateBefore(frame, IdAt(tag), id, i);
    }
    assert g[HEADER_LEN..p] == frame[HEADER_LEN..p];
  }

  lemma UpdateBefore(frame: Bytes, at: nat, id: U64, i: nat)
    requires HEADER_LEN <= at && at + 8 <= |frame| && i < at
    ensures WithId(frame, at, id)[i] == frame[i]
  {
    hide Adler32, Be32, LeBytes;
  }

  /** With room for the whole id, the updated frame reads back as the new id. */
  lemma Reparses(tag: Bytes, frame: Bytes, id: U64)
    requires Roomy(tag, frame) && ParseId(tag, frame).Some?
    ensures ParseId(tag, WithId(frame, IdAt(tag), id)) == Some(id)
  {
    var at, g := IdAt(tag), WithId(frame, IdAt(tag), id);
    hide Adler32, Be32, LeBytes, FromLe, StartsRight, ValidateChecksum, WithId;
    UpdateValidates(frame, at, id);
    UpdateStartsRight(tag, frame, id);
    IdBytes(frame, at, id);
    LeRoundTrip(id, 8);
  }

  lemma IdBytes(frame: Bytes, at: nat, id: U64)
    requires HEADER_LEN <= at && at + 8 <= |frame| - CHECKSUM_LEN
    ensures WithId(frame, at, id)[at..at + 8] == LeBytes(id, 8)
  {
    hide Adler32, Be32, LeBytes, Splice;
    var b, n := LeBytes(id, 8), |frame| - CHECKSUM_LEN;
    var f := Splice(frame, at, b);
    var g := Splice(f, n, Be32(Adler32(f[HEADER_LEN..n])));
    forall k | 0 <= k < 8
      ensures g[at..at + 8][k] == b[k]
    {
      SpliceAt(frame, at, b, at + k);
      SpliceAt(f, n, Be32(Adler32(f[HEADER_LEN..n])), at + k);
    }
  }

  lemma SpliceAt(s: Bytes, at: nat, b: Bytes, i: nat)
    requires at + |b| <= |s| && i < |s|
    ensures Splice(s, at, b)[i] == if at <= i < at + |b| then b[i - at] else s[i]
  {
  }

  /**
    parse lets a frame through when eight bytes follow the id's key, not counting
    the checksum apart. In such a short frame the checksum overwrites the top of
    the id, so ids 0 and 2^56 give the same bytes.
  */
  lemma ShortFramesCollide(tag: Bytes, frame: Bytes)
    requires |frame| >= IdAt(tag) + 8 && !Roomy(tag, frame)
    ensures WithId(frame, IdAt(tag), 0) == WithId(frame, IdAt(tag), 0x100_0000_0000_0000)
  {
    hide Adler32, Be32, LeBytes;
    var at, n := IdAt(tag), |frame| - CHECKSUM_LEN;
    var x, y := LeBytes(0, 8), LeBytes(0x100_0000_0000_0000, 8);
    LeLowBytes(0, 1, 7, 8);
    assert x[..7] == y[..7] by { assert 0 + 1 * Pow256(7) == 0x100_0000_0000_0000; }
    var f, g := Splice(frame, at, x), Splice(frame, at, y);
    assert f[..n] == g[..n] by {
      forall i | 0 <= i < n
        ensures f[i] == g[i]
      {
        assert at <= i ==> x[..7][i - at] == y[..7][i - at];
      }
    }
    assert f[HEADER_LEN..n] == f[..n][HEADER_LEN..] == g[HEADER_LEN..n];
    assert f[n + 4..] == [] == g[n + 4..];
  }

  lemma LongEnough(tag: Bytes, frame: Bytes)
    requires Offered(tag, frame) && ParseId(tag, frame).Some?
    ensures |frame| >= IdAt(tag) + 8
  {
  }

  /** Every id survives the rewriting exactly in the frames with room for it. */
  lemma ReparsesIff(tag: Bytes, frame: Bytes)
    requires Offered(tag, frame) && ParseId(tag, frame).Some?
    ensures (forall id: U64 :: ParseId(tag, WithId(frame, IdAt(tag), id)) == Some(id)) <==> Roomy(tag, frame)
  {
    hide ParseId, WithId;
    LongEnough(tag, frame);
    if Roomy(tag, frame) {
      forall id: U64
        ensures ParseId(tag, WithId(frame, IdAt(tag), id)) == Some(id)
      {
        Reparses(tag, frame, id);
      }
    } else {
      ShortFramesCollide(tag, frame);
      var zero: U64, big: U64 := 0, 0x100_0000_0000_0000;
      assert ParseId(tag, WithId(frame, IdAt(tag), zero)) == ParseId(tag, WithId(frame, IdAt(tag), big));
    }
  }

  /** A payload of seven bytes that parse() lets through: type, key of the id, and half an id. */
  const SHORT_PAYLOAD: Bytes := [0x08, 0x01, 0x11, 0, 0, 0, 0]

  /** For every tag there is a well-formed frame whose id is lost in this way. */
  lemma ShortFrameExists(tag: Bytes)
    requires Fits(tag, SHORT_PAYLOAD)
    ensures var frame := Frame(tag, SHORT_PAYLOAD);
      && Complete(|tag| + CHECKSUM_LEN, frame) && Offered(tag, frame) && ParseId(tag, frame).Some? && !Roomy(tag, frame)
      && exists id: U64 :: ParseId(tag, WithId(frame, IdAt(tag), id)) != Some(id)
  {
    var frame := Frame(tag, SHORT_PAYLOAD);
    ShortFrameParts(tag);
    hide ParseId, WithId, Frame, Complete;
    ReparsesIff(tag, frame);
  }

  lemma ShortFrameParts(tag: Bytes)
    requires Fits(tag, SHORT_PAYLOAD)
    ensures var frame := Frame(tag, SHORT_PAYLOAD);
      && Complete(|tag| + CHECKSUM_LEN, frame) && Offered(tag, frame) && ParseId(tag, frame).Some?
      && |frame| == IdAt(tag) + 8
  {
    hide Adler32, FromBe32, Be32, ValidateChecksum;
    var frame, body := Frame(tag, SHORT_PAYLOAD), Body(tag, SHORT_PAYLOAD);
    BodyParts(tag, SHORT_PAYLOAD);
    assert frame[HEADER_LEN..] == body;
    assert frame[..HEADER_LEN] == Be32(|body|);
    Be32RoundTrip(|body|);
    HeaderOnly(frame);
    var p := HEADER_LEN + |tag|;
    assert frame[HEADER_LEN..p] == tag;
    assert frame[p] == 0x08 && frame[p + 1] == 0x01 && frame[p + 2] == 0x11;
  }

  /** Writing the old bytes back undoes a write, as far as a second write further on. */
  lemma SpliceBack(s: Bytes, at: nat, n: nat, x: Bytes, y: Bytes)
    requires at + |x| <= n && n + |y| <= |s|
    ensures Splice(Splice(Splice(s, at, x), n, y), at, s[at..at + |x|])[..n] == s[..n]
  {
    hide Splice;
    var u, z := Splice(s, at, x), s[at..at + |x|];
    var t := Splice(u, n, y);
    var r := Splice(t, at, z);
    forall k | 0 <= k < n
      ensures r[k] == s[k]
    {
      SpliceAt(s, at, x, k);
      SpliceAt(u, n, y, k);
      SpliceAt(t, at, z, k);
    }
  }

  /** Putting the first id back gives back the very frame that was parsed. */
  lemma UpdateRestores(tag: Bytes, frame: Bytes, id: U64)
    requires Roomy(tag, frame) && ParseId(tag, frame).Some?
    ensures WithId(WithId(frame, IdAt(tag), id), IdAt(tag), ParseId(tag, frame).value) == frame
  {
    hide Adler32, Be32, LeBytes, FromLe, StartsRight, FromBe32;
    var at, n := IdAt(tag), |frame| - CHECKSUM_LEN;
    var orig, b := ParseId(tag, frame).value, frame[at..at + 8];
    LeBytesRoundTrip(b);
    var f := Splice(frame, at, LeBytes(id, 8));
    var g := WithId(frame, at, id);
    SpliceBack(frame, at, n, LeBytes(id, 8), Be32(Adler32(f[HEADER_LEN..n])));
    var h := Splice(g, at, LeBytes(orig, 8));
    assert h[HEADER_LEN..n] == frame[HEADER_LEN..n] by {
      assert h[..n][HEADER_LEN..] == h[HEADER_LEN..n];
      assert frame[..n][HEADER_LEN..] == frame[HEADER_LEN..n];
    }
    Be32BytesRoundTrip(frame[n..]);
    var body := frame[HEADER_LEN..];
    assert body[|body| - CHECKSUM_LEN..] == frame[n..] && body[..|body| - CHECKSUM_LEN] == frame[HEADER_LEN..n];
    assert WithId(g, at, orig) == h[..n] + frame[n..] + h[|h|..];
    assert h[..n] == frame[..n];
  }

  // ---------------------------------------------------------------- the class

  /** memcpy into a frame. */
  method CopyInto(a: array<Byte>, at: nat, b: Bytes)
    requires at + |b| <= a.Length
    modifies a
    ensures a[..] == Splice(old(a[..]), at, b)
  {
    for i := 0 to |b|
      invariant forall k | 0 <= k < a.Length :: a[k] == if at <= k < at + i then b[k - at] else old(a[k])
    {
      a[at + i] := b[i];
    }
  }

  class RawMessage {
    const message: array<Byte>
    var id: U64
    var loc: nat

    constructor (m: array<Byte>)
      ensures message == m && id == 0 && loc == 0
    {
      message, id, loc := m, 0, 0;
    }

    method Parse(tag: Bytes) returns (ok: bool)
      requires Offered(tag, message[..])
      modifies this
      ensures ok == ParseId(tag, message[..]).Some?
      ensures ok ==> id == ParseId(tag, message[..]).value && loc == IdAt(tag)
      ensures !ok ==> id == old(id) && loc == old(loc)
    {
      hide Adler32, FromLe, FromBe32;
      var body := message[HEADER_LEN..];
      var bodylen, taglen := |body|, |tag|;
      var sum := Checksum(body[..bodylen - CHECKSUM_LEN]);
      assert message[..][HEADER_LEN..] == body;
      if FromBe32(body[bodylen - CHECKSUM_LEN..]) == sum && body[..taglen] == tag && bodylen >= taglen + 3 + 8 {
        var p := HEADER_LEN + taglen;
        assert body[..taglen] == message[..][HEADER_LEN..p];
        var kind := message[p + 1];
        if message[p] == 0x08 && (kind == 0x01 || kind == 0x02) && message[p + 2] == 0x11 {
          FromLeBound(message[p + 3..p + 11]);
          assert message[p + 3..p + 11] == message[..][p + 3..p + 11];
          id, loc := FromLe(message[p + 3..p + 11]), p + 3;
          return true;
        }
      }
      assert |body| >= taglen + 3 ==> message[..][HEADER_LEN..HEADER_LEN + taglen] == body[..taglen];
      return false;
    }

    method UpdateId()
      requires HEADER_LEN <= loc && loc + 8 <= message.Length
      modifies message
      ensures message[..] == WithId(old(message[..]), loc, id)
    {
      hide Splice, LeBytes, Be32, Adler32;
      CopyInto(message, loc, LeBytes(id, 8));
      var n := message.Length - CHECKSUM_LEN;
      assert message[HEADER_LEN..n] == message[..][HEADER_LEN..n];
      var sum := Checksum(message[HEADER_LEN..n]);
      CopyInto(message, n, Be32(sum));
    }
  }
}
