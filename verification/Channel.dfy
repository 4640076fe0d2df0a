/** muduo/net/Channel.h: the interest bits of one file descriptor. */
module Channel {

  type Bits = bv16

  // poll(2) and epoll(7) agree on these values; Channel.cc:20-22
  const NONE_EVENT: Bits := 0
  const READ_EVENT: Bits := 3
  const WRITE_EVENT: Bits := 4

  function Reads(events: Bits): bool { events & READ_EVENT != 0 }

  function Writes(events: Bits): bool { events & WRITE_EVENT != 0 }

  /** Only the bits that Channel's own methods set. */
  predicate Interest(events: Bits) {
    events == NONE_EVENT || events == READ_EVENT || events == WRITE_EVENT || events == READ_EVENT | WRITE_EVENT
  }

  /** Setting or clearing a mask settles its bits and leaves every other bit alone. */
  lemma OnlyTheMask(events: Bits, mask: Bits)
    ensures (events | mask) & mask == mask && (events | mask) & !mask == events & !mask
    ensures (events & !mask) & mask == NONE_EVENT && (events & !mask) & !mask == events & !mask
  {
  }

  class Channel {
    const fd: nat
    var events: Bits
    var revents: Bits
    var index: int

    constructor (fd: nat)
      ensures this.fd == fd && events == NONE_EVENT && index == -1
    {
      this.fd := fd;
      events, revents := NONE_EVENT, NONE_EVENT;
      index := -1;
    }

    predicate IsNoneEvent()
      reads this
    {
      events == NONE_EVENT
    }

    predicate IsReading()
      reads this
    {
      Reads(events)
    }

    predicate IsWriting()
      reads this
    {
      Writes(events)
    }

    method EnableReading()
      modifies this`events
      ensures IsReading() && IsWriting() == old(IsWriting())
      ensures old(Interest(events)) ==> Interest(events)
      ensures events == old(events) | READ_EVENT
    {
      events := events | READ_EVENT;
    }

    method DisableReading()
      modifies this`events
      ensures !IsReading() && IsWriting() == old(IsWriting())
      ensures old(Interest(events)) ==> Interest(events)
      ensures events == old(events) & !READ_EVENT
    {
      events := events & !READ_EVENT;
    }

    method EnableWriting()
      modifies this`events
      ensures IsWriting() && IsReading() == old(IsReading())
      ensures old(Interest(events)) ==> Interest(events)
      ensures events == old(events) | WRITE_EVENT
    {
      events := events | WRITE_EVENT;
    }

    method DisableWriting()
      modifies this`events
      ensures !IsWriting() && IsReading() == old(IsReading())
      ensures old(Interest(events)) ==> Interest(events)
      ensures events == old(events) & !WRITE_EVENT
    {
      events := events & !WRITE_EVENT;
    }

    method DisableAll()
      modifies this`events
      ensures IsNoneEvent() && !IsReading() && !IsWriting()
    {
      events := NONE_EVENT;
    }
  }
}
