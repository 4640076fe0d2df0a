/**
  muduo/net/Buffer.h and Buffer.cc: a byte queue in a growable array, with room
  in front for cheap prepending.  Every operation is specified by what it does
  to the readable bytes.
*/
module Buffer {

  type Byte = x: int | 0 <= x < 256

  const CHEAP_PREPEND: nat := 8
  const INITIAL_SIZE: nat := 1024
  const EXTRA_SIZE: nat := 65536

  /** What readv() brought: an error, or up to the offered number of bytes. */
  datatype ReadResult = ReadError(errno: int) | ReadBytes(bytes: seq<Byte>)

  class Buffer {
    var store: array<Byte>
    var readerIndex: nat
    var writerIndex: nat

    ghost predicate Valid()
      reads this
    {
      readerIndex <= writerIndex <= store.Length
    }

    /** The readable bytes. */
    ghost function Contents(): seq<Byte>
      requires Valid()
      reads this, store
    {
      store[readerIndex..writerIndex]
    }

    constructor (initialSize: nat)
      ensures Valid() && fresh(store) && Contents() == []
      ensures readerIndex == CHEAP_PREPEND && store.Length == CHEAP_PREPEND + initialSize
    {
      store := new Byte[CHEAP_PREPEND + initialSize](_ => 0);
      readerIndex := CHEAP_PREPEND;
      writerIndex := CHEAP_PREPEND;
    }

    function ReadableBytes(): nat
      requires Valid()
      reads this
    {
      writerIndex - readerIndex
    }

    function WritableBytes(): nat
      requires Valid()
      reads this
    {
      store.Length - writerIndex
    }

    method RetrieveAll()
      requires Valid() && store.Length >= CHEAP_PREPEND
      modifies this`readerIndex, this`writerIndex
      ensures Valid() && Contents() == [] && readerIndex == CHEAP_PREPEND
    {
      readerIndex := CHEAP_PREPEND;
      writerIndex := CHEAP_PREPEND;
    }

    /** Buffer.h:113-124. */
    method Retrieve(len: nat)
      requires Valid() && store.Length >= CHEAP_PREPEND && len <= ReadableBytes()
      modifies this`readerIndex, this`writerIndex
      ensures Valid() && Contents() == old(Contents())[len..]
    {
      if len < ReadableBytes() {
        readerIndex := readerIndex + len;
      } else {
        RetrieveAll();
      }
    }

    method RetrieveAsString(len: nat) returns (result: seq<Byte>)
      requires Valid() && store.Length >= CHEAP_PREPEND && len <= ReadableBytes()
      modifies this`readerIndex, this`writerIndex
      ensures Valid() && result == old(Contents())[..len] && Contents() == old(Contents())[len..]
    {
      result := store[readerIndex..readerIndex + len];
      Retrieve(len);
    }

    /** Buffer.h:182-187. */
    method Append(data: seq<Byte>)
      requires Valid() && store.Length >= CHEAP_PREPEND
      modifies this, store
      ensures Valid() && store.Length >= CHEAP_PREPEND && (store == old(store) || fresh(store))
      ensures Contents() == old(Contents()) + data
      ensures readerIndex == old(readerIndex) || readerIndex == CHEAP_PREPEND
      ensures old(WritableBytes()) >= |data| ==>
        store == old(store) && readerIndex == old(readerIndex) && writerIndex == old(writerIndex) + |data|
    {
      EnsureWritableBytes(|data|);
      FillTail(data);
    }

    /** The bytes are put into the tail and become readable. */
    method FillTail(data: seq<Byte>)
      requires Valid() && |data| <= WritableBytes()
      modifies this`writerIndex, store
      ensures Valid() && writerIndex == old(writerIndex) + |data| && Contents() == old(Contents()) + data
    {
      var at := writerIndex;
      CopyIn(at, data);
      assert forall k | 0 <= k < at :: store[k] == store[..][k] == old(store[k]);
      assert forall k | at <= k < at + |data| :: store[k] == store[..][k] == data[k - at];
      assert store[readerIndex..at] == old(Contents()) && store[at..at + |data|] == data;
      HasWritten(|data|);
    }

    /** std::copy of outside bytes into the array. */
    method CopyIn(at: nat, data: seq<Byte>)
      requires at + |data| <= store.Length
      modifies store
      ensures store[..] == old(store[..])[..at] + data + old(store[..])[at + |data|..]
    {
      for i := 0 to |data|
        invariant forall k | 0 <= k < i :: store[at + k] == data[k]
        invariant forall k | 0 <= k < at || at + i <= k < store.Length :: store[k] == old(store[k])
      {
        store[at + i] := data[i];
      }
      ghost var want := old(store[..])[..at] + data + old(store[..])[at + |data|..];
      assert |want| == store.Length;
      forall k | 0 <= k < store.Length
        ensures store[k] == want[k]
      {
        assert at <= k < at + |data| ==> store[at + (k - at)] == data[k - at];
      }
    }

    /** Buffer.h:194-201. */
    method EnsureWritableBytes(len: nat)
      requires Valid() && store.Length >= CHEAP_PREPEND
      modifies this, store
      ensures Valid() && store.Length >= CHEAP_PREPEND && (store == old(store) || fresh(store))
      ensures WritableBytes() >= len && Contents() == old(Contents())
      ensures readerIndex == old(readerIndex) || readerIndex == CHEAP_PREPEND
      ensures old(WritableBytes()) >= len ==>
        store == old(store) && store[..] == old(store[..]) && readerIndex == old(readerIndex)
        && writerIndex == old(writerIndex)
      ensures store.Length ==
        if len <= old(WritableBytes()) || len + CHEAP_PREPEND <= old(WritableBytes()) + old(readerIndex)
        then old(store.Length) else old(writerIndex) + len
    {
      if WritableBytes() < len {
        MakeSpace(len);
      }
    }

    /** Buffer.h:390-409. */
    method MakeSpace(len: nat)
      requires Valid() && store.Length >= CHEAP_PREPEND && WritableBytes() < len
      modifies this, store
      ensures Valid() && store.Length >= CHEAP_PREPEND && (store == old(store) || fresh(store))
      ensures WritableBytes() >= len && Contents() == old(Contents())
      ensures if old(WritableBytes()) + old(readerIndex) < len + CHEAP_PREPEND
              then readerIndex == old(readerIndex) && store.Length == old(writerIndex) + len
              else readerIndex == CHEAP_PREPEND && store == old(store)
    {
      if WritableBytes() + readerIndex < len + CHEAP_PREPEND {
        Resize(writerIndex + len);
      } else {
        assert CHEAP_PREPEND < readerIndex;
        var readable := ReadableBytes();
        MoveDown(readerIndex, writerIndex, CHEAP_PREPEND);
        readerIndex := CHEAP_PREPEND;
        writerIndex := readerIndex + readable;
      }
    }

    /** std::vector::resize to a larger size. */
    method Resize(size: nat)
      requires size >= store.Length
      modifies this`store
      ensures fresh(store) && store.Length == size && store[..old(store.Length)] == old(store[..])
    {
      var s := store;
      store := new Byte[size](i requires i >= 0 reads s => if i < s.Length then s[i] else 0);
    }

    /** std::copy within the array, to a lower place that may overlap the source. */
    method MoveDown(from: nat, to: nat, dest: nat)
      requires dest <= from <= to <= store.Length
      modifies store
      ensures store[dest..dest + to - from] == old(store[from..to])
      ensures store[..dest] == old(store[..dest])
    {
      var n := to - from;
      ghost var was, moving := store[..], store[from..to];
      for i := 0 to n
        invariant forall k | 0 <= k < i :: store[dest + k] == moving[k]
        invariant forall k | 0 <= k < dest || dest + i <= k < store.Length :: store[k] == was[k]
      {
        assert store[from + i] == was[from + i] == moving[i];
        store[dest + i] := store[from + i];
      }
      ghost var moved := store[dest..dest + n];
      forall k | 0 <= k < n
        ensures moved[k] == moving[k]
      {
        assert store[dest + k] == moving[k];
      }
      assert forall k | 0 <= k < dest :: store[k] == was[k];
    }

    /** Buffer.h:209-213: bytes put into the tail become readable. */
    method HasWritten(len: nat)
      requires Valid() && len <= WritableBytes()
      modifies this`writerIndex
      ensures Valid() && writerIndex == old(writerIndex) + len
      ensures Contents() == old(Contents()) + old(store[writerIndex..writerIndex + len])
    {
      writerIndex := writerIndex + len;
    }

    /** Buffer.h:215-219: takes back the bytes appended last. */
    method Unwrite(len: nat)
      requires Valid() && len <= ReadableBytes()
      modifies this`writerIndex
      ensures Valid() && Contents() == old(Contents())[..|old(Contents())| - len]
    {
      writerIndex := writerIndex - len;
    }

    /** Buffer.h:354-360. */
    method Prepend(data: seq<Byte>)
      requires Valid() && |data| <= readerIndex
      modifies this`readerIndex, store
      ensures Valid() && Contents() == data + old(Contents()) && readerIndex == old(readerIndex) - |data|
    {
      ghost var was, want := store[..], data + Contents();
      readerIndex := readerIndex - |data|;
      CopyIn(readerIndex, data);
      ghost var now := Contents();
      forall k | 0 <= k < |want|
        ensures now[k] == want[k]
      {
        assert now[k] == store[..][readerIndex + k];
      }
      assert now == want;
    }

    /** Buffer.h:362-369: a fresh store with the same bytes and room for reserve more. */
    method Shrink(reserve: nat)
      requires Valid() && store.Length >= CHEAP_PREPEND
      modifies this
      ensures Valid() && store.Length >= CHEAP_PREPEND && fresh(store)
      ensures Contents() == old(Contents()) && WritableBytes() >= reserve && readerIndex == CHEAP_PREPEND
      ensures var need := old(ReadableBytes()) + reserve; store.Length == 8 + (if need <= 1024 then 1024 else need)
    {
      var other := new Buffer(INITIAL_SIZE);
      other.EnsureWritableBytes(ReadableBytes() + reserve);
      var data := store[readerIndex..writerIndex];
      other.Append(data);
      store, readerIndex, writerIndex := other.store, other.readerIndex, other.writerIndex;
    }

    /** How much readFd offers readv(): the tail, and the stack buffer when the tail is small. */
    function Offered(): nat
      requires Valid()
      reads this
    {
      if WritableBytes() < EXTRA_SIZE then WritableBytes() + EXTRA_SIZE else WritableBytes()
    }

    /** Buffer.cc:25-57.  The kernel fills the tail first and spills into the stack buffer. */
    method ReadFd(r: ReadResult) returns (n: int, savedErrno: int)
      requires Valid() && store.Length >= CHEAP_PREPEND
      requires r.ReadBytes? ==> |r.bytes| <= Offered()
      modifies this, store
      ensures Valid() && store.Length >= CHEAP_PREPEND && (store == old(store) || fresh(store))
      ensures r.ReadError? ==> n < 0 && savedErrno == r.errno && Contents() == old(Contents())
      ensures r.ReadBytes? ==> n == |r.bytes| && Contents() == old(Contents()) + r.bytes
    {
      savedErrno := 0;
      var writable := WritableBytes();
      match r
      case ReadError(e) =>
        n := -1;
        savedErrno := e;
      case ReadBytes(bytes) =>
        n := |bytes|;
        if n <= writable {
          FillTail(bytes);
        } else {
          var extrabuf := bytes[writable..];
          FillTail(bytes[..writable]);
          Append(extrabuf);
          assert bytes == bytes[..writable] + extrabuf;
        }
    }
  }
}
