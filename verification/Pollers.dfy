/**
  The two pollers, muduo/net/poller/PollPoller.cc and EPollPoller.cc, over the
  same channels.  Both keep one abstract thing: for each file descriptor, the
  events somebody wants to hear of.
*/
module Pollers {
  import opened Channel

  /** The non-empty interests. */
  type Interests = map<nat, Bits>

  /** What an update or a removal does to the interests, whichever poller is used. */
  function Updated(m: Interests, fd: nat, events: Bits): Interests {
    if events == NONE_EVENT then m - {fd} else m[fd := events]
  }

  // ---------------------------------------------------------------- poll

  datatype PollFd = PollFd(fd: int, events: Bits, revents: Bits)

  /** A negative entry -fd-1 is one that poll() ignores. */
  function Decode(fd: int): (r: nat)
    ensures r == fd || -1 - r == fd
  {
    if fd < 0 then -1 - fd else fd
  }

  /** The file descriptors poll() reported, in array order. */
  function ActiveFds(ps: seq<PollFd>): seq<nat> {
    if ps == [] then [] else
      ActiveFds(ps[..|ps| - 1]) +
      (if ps[|ps| - 1].revents != 0 then [Decode(ps[|ps| - 1].fd)] else [])
  }

  lemma NoActive(ps: seq<PollFd>)
    requires ps == []
    ensures ActiveFds(ps) == []
  {
  }

  lemma ActiveSnoc(ps: seq<PollFd>, i: nat)
    requires i < |ps|
    ensures ActiveFds(ps[..i + 1]) == ActiveFds(ps[..i]) + (if ps[i].revents != 0 then [Decode(ps[i].fd)] else [])
  {
    assert ps[..i + 1][..i] == ps[..i];
  }

  /** Each descriptor's index leads to its entry, and each entry back to its descriptor. */
  predicate Bijection(ix: map<nat, int>, ps: seq<PollFd>) {
    && (forall fd | fd in ix :: 0 <= ix[fd] < |ps| && Decode(ps[ix[fd]].fd) == fd)
    && (forall i | 0 <= i < |ps| :: EntryOk(ix, ps, i))
  }

  /** Entry i belongs to a known descriptor, and is negative only when nothing is wanted. */
  predicate EntryOk(ix: map<nat, int>, ps: seq<PollFd>, i: int)
    requires 0 <= i < |ps|
  {
    && Decode(ps[i].fd) in ix && ix[Decode(ps[i].fd)] == i
    && (ps[i].fd < 0 ==> ps[i].events == NONE_EVENT)
  }

  /** What poll() listens for. */
  function InterestsOf(ix: map<nat, int>, ps: seq<PollFd>): Interests
    requires Bijection(ix, ps)
  {
    map fd | fd in ix && ps[ix[fd]].events != NONE_EVENT :: ps[ix[fd]].events
  }

  lemma AppendEntry(ix: map<nat, int>, ps: seq<PollFd>, fd: nat, events: Bits)
    requires Bijection(ix, ps) && fd !in ix
    ensures var ix', ps' := ix[fd := |ps|], ps + [PollFd(fd, events, 0)];
      Bijection(ix', ps') && InterestsOf(ix', ps') == Updated(InterestsOf(ix, ps), fd, events)
  {
    hide InterestsOf, Updated;
    var ix', ps' := ix[fd := |ps|], ps + [PollFd(fd, events, 0)];
    forall i | 0 <= i < |ps'| ensures EntryOk(ix', ps', i) {
      assert i < |ps| ==> EntryOk(ix, ps, i) && ps'[i] == ps[i];
    }
    OneInterest(ix, ps, ix', ps', fd, events);
  }

  /** When the entries of all descriptors but fd are as before, so are their interests. */
  lemma OneInterest(ix: map<nat, int>, ps: seq<PollFd>, ix': map<nat, int>, ps': seq<PollFd>, fd: nat, events: Bits)
    requires Bijection(ix, ps) && Bijection(ix', ps') && ix'.Keys == ix.Keys + {fd} && ps'[ix'[fd]].events == events
    requires forall f | f in ix && f != fd :: ps'[ix'[f]].events == ps[ix[f]].events
    ensures InterestsOf(ix', ps') == Updated(InterestsOf(ix, ps), fd, events)
  {
    hide Bijection, InterestsOf;
    var m, m' := Updated(InterestsOf(ix, ps), fd, events), InterestsOf(ix', ps');
    forall f: nat
      ensures (f in m' <==> f in m) && (f in m' ==> m'[f] == m[f])
    {
      InterestAt(ix, ps, f);
      InterestAt(ix', ps', f);
    }
    assert m' == m;
  }

  lemma InterestAt(ix: map<nat, int>, ps: seq<PollFd>, f: nat)
    requires Bijection(ix, ps)
    ensures f in InterestsOf(ix, ps) <==> f in ix && ps[ix[f]].events != NONE_EVENT
    ensures f in InterestsOf(ix, ps) ==> InterestsOf(ix, ps)[f] == ps[ix[f]].events
  {
  }

  lemma ReplaceEntry(ix: map<nat, int>, ps: seq<PollFd>, fd: nat, events: Bits)
    requires Bijection(ix, ps) && fd in ix
    ensures var ps' := ps[ix[fd] := PollFd(if events == NONE_EVENT then -1 - fd else fd, events, 0)];
      Bijection(ix, ps') && InterestsOf(ix, ps') == Updated(InterestsOf(ix, ps), fd, events)
  {
    hide InterestsOf, Updated;
    var ps' := ps[ix[fd] := PollFd(if events == NONE_EVENT then -1 - fd else fd, events, 0)];
    assert EntryOk(ix, ps, ix[fd]);
    forall i | 0 <= i < |ps| ensures EntryOk(ix, ps', i) {
      assert EntryOk(ix, ps, i);
    }
    forall f | f in ix && f != fd ensures ix[f] != ix[fd] {
      assert Decode(ps[ix[f]].fd) == f;
    }
    OneInterest(ix, ps, ix, ps', fd, events);
  }

  /** The entries after an update: a new one at the end, or the old one overwritten and marked if nothing is wanted. */
  function Placed(ps: seq<PollFd>, idx: int, fd: nat, events: Bits): seq<PollFd>
    requires idx < |ps|
  {
    if idx < 0 then ps + [PollFd(fd, events, 0)]
    else ps[idx := PollFd(if events == NONE_EVENT then -1 - fd else fd, events, 0)]
  }

  /** Every descriptor's entry asks for what m says, and is marked when that is nothing. */
  predicate EntriesAre(ix: map<nat, int>, ps: seq<PollFd>, m: map<nat, Bits>) {
    forall f | f in m ::
      && f in ix && 0 <= ix[f] < |ps|
      && ps[ix[f]].events == m[f] && ps[ix[f]].fd == if m[f] == NONE_EVENT then -1 - f else f
  }

  lemma PlacedEntries(ix: map<nat, int>, ps: seq<PollFd>, m: map<nat, Bits>, fd: nat, events: Bits)
    requires Bijection(ix, ps) && EntriesAre(ix, ps, m) && (fd in ix || events != NONE_EVENT)
    ensures var idx := if fd in ix then ix[fd] else -1;
      && idx < |ps|
      && EntriesAre(ix[fd := if idx < 0 then |ps| else idx], Placed(ps, idx, fd, events), m[fd := events])
  {
    var idx := if fd in ix then ix[fd] else -1;
    forall f | f in m && f != fd ensures ix[f] != idx {
      assert Decode(ps[ix[f]].fd) == f;
    }
  }

  lemma FollowedEntries(ix: map<nat, int>, ps: seq<PollFd>, ix': map<nat, int>, ps': seq<PollFd>, m: map<nat, Bits>,
                        fd: nat)
    requires EntriesAre(ix, ps, m) && EntriesFollow(ix, ps, ix', ps') && ix'.Keys == m.Keys - {fd}
    ensures EntriesAre(ix', ps', m - {fd})
  {
  }

  lemma EntryKnown(ix: map<nat, int>, ps: seq<PollFd>, i: nat)
    requires Bijection(ix, ps) && i < |ps|
    ensures Decode(ps[i].fd) in ix && ix[Decode(ps[i].fd)] == i
  {
    assert EntryOk(ix, ps, i);
  }

  lemma SameInterests(ix: map<nat, int>, ps: seq<PollFd>, ix': map<nat, int>, ps': seq<PollFd>, fd: nat)
    requires Bijection(ix, ps) && Bijection(ix', ps') && fd in ix && ps[ix[fd]].events == NONE_EVENT
    requires ix'.Keys == ix.Keys - {fd}
    requires forall f | f in ix' :: 0 <= ix'[f] < |ps'| && ps'[ix'[f]] == ps[ix[f]]
    ensures InterestsOf(ix', ps') == Updated(InterestsOf(ix, ps), fd, NONE_EVENT)
  {
    hide Bijection, InterestsOf;
    var m, m' := Updated(InterestsOf(ix, ps), fd, NONE_EVENT), InterestsOf(ix', ps');
    forall f: nat
      ensures (f in m' <==> f in m) && (f in m' ==> m'[f] == m[f])
    {
      InterestAt(ix, ps, f);
      InterestAt(ix', ps', f);
    }
    assert m' == m;
  }

  /** Whatever descriptor is left has its entry as it was, wherever that is now. */
  predicate EntriesFollow(ix: map<nat, int>, ps: seq<PollFd>, ix': map<nat, int>, ps': seq<PollFd>) {
    forall f | f in ix' :: f in ix && 0 <= ix[f] < |ps| && 0 <= ix'[f] < |ps'| && ps'[ix'[f]] == ps[ix[f]]
  }

  /** Moving the last entry into the hole keeps the bijection and every other interest. */
  lemma SwapOut(ix: map<nat, int>, ps: seq<PollFd>, fd: nat)
    requires Bijection(ix, ps) && fd in ix && ix[fd] < |ps| - 1 && ps[ix[fd]].events == NONE_EVENT
    ensures var idx, last := ix[fd], |ps| - 1;
      var end := Decode(ps[last].fd);
      var ix', ps' := (ix - {fd})[end := idx], ps[idx := ps[last]][last := ps[idx]][..last];
      && end in ix && end != fd && ix[end] == last
      && Bijection(ix', ps') && InterestsOf(ix', ps') == Updated(InterestsOf(ix, ps), fd, NONE_EVENT)
      && EntriesFollow(ix, ps, ix', ps')
  {
    var idx, last := ix[fd], |ps| - 1;
    var end := Decode(ps[last].fd);
    assert EntryOk(ix, ps, last) && EntryOk(ix, ps, idx);
    var ix', ps' := (ix - {fd})[end := idx], ps[idx := ps[last]][last := ps[idx]][..last];
    forall i: nat | i < last
      ensures ps'[i] == if i == idx then ps[last] else ps[i]
    {
    }
    hide InterestsOf;
    forall i | 0 <= i < last ensures EntryOk(ix', ps', i) {
      assert EntryOk(ix, ps, i);
    }
    forall f | f in ix' ensures 0 <= ix'[f] < last && ps'[ix'[f]] == ps[ix[f]] {
      if f != end {
        assert EntryOk(ix, ps, ix[f]);
        assert ix[f] != last && ix[f] != idx;
      }
    }
    SameInterests(ix, ps, ix', ps', fd);
  }

  lemma PopEntry(ix: map<nat, int>, ps: seq<PollFd>, fd: nat)
    requires Bijection(ix, ps) && fd in ix && ix[fd] == |ps| - 1 && ps[ix[fd]].events == NONE_EVENT
    ensures Bijection(ix - {fd}, ps[..|ps| - 1])
    ensures InterestsOf(ix - {fd}, ps[..|ps| - 1]) == Updated(InterestsOf(ix, ps), fd, NONE_EVENT)
    ensures EntriesFollow(ix, ps, ix - {fd}, ps[..|ps| - 1])
  {
    var last := |ps| - 1;
    assert EntryOk(ix, ps, last);
    forall i | 0 <= i < last ensures EntryOk(ix - {fd}, ps[..last], i) {
      assert EntryOk(ix, ps, i);
    }
    forall f | f in ix && f != fd ensures ix[f] != last {
      assert Decode(ps[ix[f]].fd) == f;
    }
  }

  class PollPoller {
    var pollfds: seq<PollFd>
    var channels: map<nat, Channel>

    /** The index() of each channel, by descriptor. */
    ghost function Index(): map<nat, int>
      reads this, channels.Values`index
    {
      map fd | fd in channels :: channels[fd].index
    }

    /** channels_ and pollfds_ are in bijection through index(). */
    ghost predicate Valid()
      reads this, channels.Values`index
    {
      (forall fd | fd in channels :: channels[fd].fd == fd) && Bijection(Index(), pollfds)
    }

    ghost function Wanted(): Interests
      requires Valid()
      reads this, channels.Values`index
    {
      InterestsOf(Index(), pollfds)
    }

    /** The channel of entry i has been told what poll() saw. */
    ghost predicate Reported(i: int)
      requires 0 <= i < |pollfds|
      reads this, channels.Values
    {
      var fd := Decode(pollfds[i].fd);
      fd in channels && channels[fd].index == i && channels[fd].revents == pollfds[i].revents
    }

    constructor ()
      ensures Valid() && channels == map[] && Wanted() == map[]
    {
      pollfds, channels := [], map[];
    }

    /** What updateChannel asserts, PollPoller.cc:82, 96-100. */
    ghost predicate UpdateAsserts(ch: Channel)
      reads this, ch
    {
      if ch.index < 0 then ch.fd !in channels
      else
        && ch.fd in channels && channels[ch.fd] == ch && ch.index < |pollfds|
        && (pollfds[ch.index].fd == ch.fd || pollfds[ch.index].fd == -1 - ch.fd)
    }

    /** A channel that has been removed can be given to updateChannel again exactly when its index is negative. */
    lemma AgainIffNegative(ch: Channel)
      requires ch.fd !in channels
      ensures UpdateAsserts(ch) <==> ch.index < 0
    {
    }

    /** PollPoller.cc:75-110. */
    method UpdateChannel(ch: Channel)
      requires Valid() && UpdateAsserts(ch)
      modifies this, ch`index
      ensures Valid() && channels == old(channels)[ch.fd := ch]
      ensures ch.index == if old(ch.index) < 0 then |old(pollfds)| else old(ch.index)
      ensures Index() == old(Index())[ch.fd := ch.index]
      ensures pollfds == Placed(old(pollfds), old(ch.index), ch.fd, ch.events)
      ensures Wanted() == Updated(old(Wanted()), ch.fd, ch.events)
    {
      hide Bijection, InterestsOf;
      ghost var ix := Index();
      if ch.index < 0 {
        AppendEntry(ix, pollfds, ch.fd, ch.events);
        pollfds := pollfds + [PollFd(ch.fd, ch.events, 0)];
        var idx := |pollfds| - 1;
        ch.index := idx;
        channels := channels[ch.fd := ch];
        assert Index() == ix[ch.fd := idx];
      } else {
        ReplaceEntry(ix, pollfds, ch.fd, ch.events);
        IndexInRange(ix, pollfds, ch.fd);
        var idx := ch.index;
        pollfds := pollfds[idx := PollFd(ch.fd, ch.events, 0)];
        if ch.events == NONE_EVENT {
          pollfds := pollfds[idx := pollfds[idx].(fd := -1 - ch.fd)];
        }
        assert pollfds == Placed(old(pollfds), idx, ch.fd, ch.events);
        assert Index() == ix && channels == channels[ch.fd := ch];
      }
    }

    /** PollPoller.cc:112-140: the hole is filled with the last entry. */
    method RemoveChannel(ch: Channel)
      requires Valid() && ch.fd in channels && channels[ch.fd] == ch
      requires ch.events == NONE_EVENT && 0 <= ch.index < |pollfds|
      requires pollfds[ch.index].fd == -1 - ch.fd && pollfds[ch.index].events == ch.events
      modifies this, channels.Values`index
      ensures Valid() && channels == old(channels) - {ch.fd}
      ensures Wanted() == Updated(old(Wanted()), ch.fd, NONE_EVENT)
      ensures ch.index == old(ch.index) && !UpdateAsserts(ch)
      ensures EntriesFollow(old(Index()), old(pollfds), Index(), pollfds)
    {
      hide Bijection, InterestsOf, EntriesFollow;
      ghost var ix := Index();
      var idx := ch.index;
      channels := channels - {ch.fd};
      if idx == |pollfds| - 1 {
        PopEntry(ix, pollfds, ch.fd);
        pollfds := pollfds[..|pollfds| - 1];
        assert Index() == ix - {ch.fd};
      } else {
        SwapOut(ix, pollfds, ch.fd);
        var last := |pollfds| - 1;
        var channelAtEnd := pollfds[last].fd;
        pollfds := pollfds[idx := pollfds[last]][last := pollfds[idx]];
        if channelAtEnd < 0 {
          channelAtEnd := -channelAtEnd - 1;
        }
        channels[channelAtEnd].index := idx;
        pollfds := pollfds[..last];
        assert Index() == (ix - {ch.fd})[channelAtEnd := idx];
      }
    }

    /** PollPoller.cc:55-73, given what poll() wrote into revents and how many it counted. */
    method FillActiveChannels(numEvents: nat) returns (active: seq<Channel>)
      requires Valid() && numEvents == |ActiveFds(pollfds)|
      requires forall i | 0 <= i < |pollfds| && pollfds[i].revents != 0 :: pollfds[i].fd >= 0
      modifies channels.Values`revents
      ensures Valid() && |active| == numEvents
      ensures forall k | 0 <= k < numEvents ::
        ActiveFds(pollfds)[k] in channels && active[k] == channels[ActiveFds(pollfds)[k]]
      ensures forall i | 0 <= i < |pollfds| && pollfds[i].revents != 0 :: Reported(i)
    {
      hide Bijection, ActiveFds;
      active := [];
      assert ActiveFds(pollfds[..0]) == [] by { NoActive(pollfds[..0]); }
      ghost var fds: seq<nat> := [];
      var left := numEvents;
      var i := 0;
      while i < |pollfds| && left > 0
        invariant Valid() && 0 <= i <= |pollfds| && left + |active| == numEvents
        invariant fds == ActiveFds(pollfds[..i]) && |active| == |fds|
        invariant forall k | 0 <= k < |fds| :: fds[k] in channels && active[k] == channels[fds[k]]
        invariant forall j | 0 <= j < i && pollfds[j].revents != 0 :: Reported(j)
      {
        ActiveSnoc(pollfds, i);
        EntryKnown(Index(), pollfds, i);
        if pollfds[i].revents != 0 {
          left := left - 1;
          var ch := channels[pollfds[i].fd];
          assert ch.fd == pollfds[i].fd;
          ch.revents := pollfds[i].revents;
          active := active + [ch];
          fds := fds + [pollfds[i].fd];
          assert Reported(i);
        }
        i := i + 1;
      }
      NoMoreActive(pollfds, i);
      assert pollfds[..|pollfds|] == pollfds;
    }
  }

  lemma IndexInRange(ix: map<nat, int>, ps: seq<PollFd>, fd: nat)
    requires Bijection(ix, ps) && fd in ix
    ensures 0 <= ix[fd] < |ps|
  {
  }

  /** Once all the reported events are accounted for, no later entry has any. */
  lemma {:induction false} NoMoreActive(ps: seq<PollFd>, i: nat)
    requires i <= |ps|
    ensures ActiveFds(ps[..i]) <= ActiveFds(ps)
    ensures |ActiveFds(ps[..i])| == |ActiveFds(ps)| ==>
      ActiveFds(ps[..i]) == ActiveFds(ps) && forall j | i <= j < |ps| :: ps[j].revents == 0
    decreases |ps| - i
  {
    if i == |ps| {
      assert ps[..i] == ps;
    } else {
      assert ps[..i + 1][..i] == ps[..i];
      NoMoreActive(ps, i + 1);
    }
  }

  // ---------------------------------------------------------------- epoll

  const NEW: int := -1
  const ADDED: int := 1
  const DELETED: int := 2

  datatype CtlOp = CtlAdd | CtlMod | CtlDel

  function NonEmpty(k: map<nat, Bits>): Interests {
    map fd | fd in k && k[fd] != NONE_EVENT :: k[fd]
  }

  lemma KernelChange(k: map<nat, Bits>, fd: nat, events: Bits)
    ensures NonEmpty(k[fd := events]) == Updated(NonEmpty(k), fd, events)
    ensures NonEmpty(k - {fd}) == Updated(NonEmpty(k), fd, NONE_EVENT)
  {
  }

  class EPollPoller {
    var channels: map<nat, Channel>
    ghost var kernel: map<nat, Bits>     // the epoll set, as the kernel has it

    /** The channel's index says whether the kernel has the descriptor. */
    ghost predicate Valid()
      reads this, channels.Values`index
    {
      && (forall fd | fd in channels :: channels[fd].fd == fd && IndexOk(fd))
      && (forall fd | fd in kernel :: fd in channels)
    }

    ghost predicate IndexOk(fd: nat)
      requires fd in channels
      reads this, channels.Values`index
    {
      (channels[fd].index == ADDED && fd in kernel) || (channels[fd].index == DELETED && fd !in kernel)
    }

    ghost function Wanted(): Interests
      reads this
    {
      NonEmpty(kernel)
    }

    constructor ()
      ensures Valid() && channels == map[] && Wanted() == map[]
    {
      channels, kernel := map[], map[];
    }

    /** EPollPoller.cc:172-192.  The kernel refuses ADD of a present descriptor and MOD or DEL of an absent one. */
    method Update(op: CtlOp, ch: Channel)
      requires op.CtlAdd? <==> ch.fd !in kernel
      modifies this`kernel
      ensures kernel == if op.CtlDel? then old(kernel) - {ch.fd} else old(kernel)[ch.fd := ch.events]
    {
      kernel := if op.CtlDel? then kernel - {ch.fd} else kernel[ch.fd := ch.events];
    }

    /** What updateChannel asserts, EPollPoller.cc:119, 124-125, 136-138. */
    ghost predicate UpdateAsserts(ch: Channel)
      reads this, ch
    {
      if ch.index == NEW then ch.fd !in channels
      else ch.fd in channels && channels[ch.fd] == ch && (ch.index == DELETED || ch.index == ADDED)
    }

    /** EPollPoller.cc:107-149. */
    method UpdateChannel(ch: Channel)
      requires Valid() && UpdateAsserts(ch)
      modifies this, ch`index
      ensures Valid() && channels == old(channels)[ch.fd := ch]
      ensures ch.index == (if old(ch.index) == ADDED && ch.events == NONE_EVENT then DELETED else ADDED)
      ensures Wanted() == Updated(old(Wanted()), ch.fd, ch.events)
    {
      hide NonEmpty, Updated;
      KernelChange(kernel, ch.fd, ch.events);
      assert ch.index != NEW ==> IndexOk(ch.fd);
      if ch.index == NEW || ch.index == DELETED {
        if ch.index == NEW {
          channels := channels[ch.fd := ch];
        }
        ch.index := ADDED;
        Update(CtlAdd, ch);
      } else {
        if ch.IsNoneEvent() {
          Update(CtlDel, ch);
          ch.index := DELETED;
        } else {
          Update(CtlMod, ch);
        }
      }
      assert channels == old(channels)[ch.fd := ch];
      forall fd | fd in channels ensures channels[fd].fd == fd && IndexOk(fd) {
        assert fd != ch.fd ==> old(channels[fd].fd == fd) && old(IndexOk(fd)) && channels[fd] != ch;
      }
    }

    /** EPollPoller.cc:151-170. */
    method RemoveChannel(ch: Channel)
      requires Valid() && ch.fd in channels && channels[ch.fd] == ch && ch.events == NONE_EVENT
      modifies this, ch`index
      ensures Valid() && channels == old(channels) - {ch.fd} && ch.index == NEW && UpdateAsserts(ch)
      ensures Wanted() == Updated(old(Wanted()), ch.fd, NONE_EVENT)
    {
      assert IndexOk(ch.fd);
      channels := channels - {ch.fd};
      if ch.index == ADDED {
        Update(CtlDel, ch);
      }
      ch.index := NEW;
      forall fd | fd in channels ensures channels[fd].fd == fd && IndexOk(fd) {
        assert old(channels[fd].fd == fd) && old(IndexOk(fd)) && channels[fd] != ch;
      }
    }
  }

  /** A channel used, disabled and removed: poll refuses it from then on ... */
  method PollRefusesAgain(fd: nat) returns (p: PollPoller, c: Channel)
    ensures p.Valid() && p.channels == map[] && c.fd == fd && c.events == NONE_EVENT && !p.UpdateAsserts(c)
  {
    hide Bijection, InterestsOf, Updated, EntriesFollow;
    p := new PollPoller();
    c := new Channel(fd);
    c.EnableReading();
    p.UpdateChannel(c);
    c.DisableAll();
    p.UpdateChannel(c);
    p.RemoveChannel(c);
    assert p.channels.Keys == {};
  }

  /** ... and epoll takes it again. */
  method EPollTakesAgain(fd: nat) returns (e: EPollPoller, d: Channel)
    ensures e.Valid() && e.channels == map[] && d.fd == fd && d.events == NONE_EVENT && e.UpdateAsserts(d)
  {
    hide NonEmpty, Updated;
    e := new EPollPoller();
    d := new Channel(fd);
    d.EnableReading();
    e.UpdateChannel(d);
    d.DisableAll();
    e.UpdateChannel(d);
    e.RemoveChannel(d);
    assert e.channels.Keys == {};
  }

  // ---------------------------------------------------------------- the same interests

  datatype Op = Update(fd: nat, events: Bits) | Remove(fd: nat)

  /** The interests after a run of updates and removals. */
  function After(ops: seq<Op>): Interests {
    if ops == [] then map[] else
      var last := ops[|ops| - 1];
      Updated(After(ops[..|ops| - 1]), last.fd, if last.Update? then last.events else NONE_EVENT)
  }

  /** An fd is wanted after a run just when its last update asked for something and no removal followed. */
  lemma {:induction false} AfterIsLastUpdate(ops: seq<Op>, fd: nat)
    ensures fd in After(ops) <==> exists k :: 0 <= k < |ops| && LastWord(ops, fd, k) && Asks(ops[k])
    ensures forall k | 0 <= k < |ops| && LastWord(ops, fd, k) && Asks(ops[k]) ::
      fd in After(ops) && After(ops)[fd] == ops[k].events
  {
    if ops != [] {
      var n := |ops| - 1;
      var rest := ops[..n];
      AfterIsLastUpdate(rest, fd);
      hide After;
      AfterSnoc(ops);
      if ops[n].fd == fd {
        assert LastWord(ops, fd, n);
        assert forall k | 0 <= k < |ops| && LastWord(ops, fd, k) :: k == n;
      } else {
        forall k | 0 <= k < n ensures rest[k] == ops[k] && (LastWord(ops, fd, k) <==> LastWord(rest, fd, k)) {
        }
        assert !LastWord(ops, fd, n);
      }
    }
  }

  lemma AfterSnoc(ops: seq<Op>)
    requires ops != []
    ensures var last := ops[|ops| - 1];
      After(ops) == Updated(After(ops[..|ops| - 1]), last.fd, if last.Update? then last.events else NONE_EVENT)
  {
  }

  predicate Asks(op: Op) {
    op.Update? && op.events != NONE_EVENT
  }

  ghost predicate LastWord(ops: seq<Op>, fd: nat, k: int)
    requires 0 <= k < |ops|
  {
    ops[k].fd == fd && forall j | k < j < |ops| :: ops[j].fd != fd
  }

  /** The registered descriptors after a run, with what each was last updated to. */
  function Registered(ops: seq<Op>): map<nat, Bits> {
    if ops == [] then map[] else
      var m, last := Registered(ops[..|ops| - 1]), ops[|ops| - 1];
      if last.Update? then m[last.fd := last.events] else m - {last.fd}
  }

  /** A first update carries an event; a removal comes after the channel was disabled. */
  predicate InOrder(m: map<nat, Bits>, op: Op) {
    match op
    case Update(fd, events) => fd in m || events != NONE_EVENT
    case Remove(fd) => fd in m && m[fd] == NONE_EVENT
  }

  predicate AllInOrder(ops: seq<Op>) {
    forall k | 0 <= k < |ops| :: InOrder(Registered(ops[..k]), ops[k])
  }

  lemma EntryEvents(ix: map<nat, int>, ps: seq<PollFd>, fd: nat)
    requires Bijection(ix, ps) && fd in ix
    ensures 0 <= ix[fd] < |ps|
    ensures ps[ix[fd]].events == if fd in InterestsOf(ix, ps) then InterestsOf(ix, ps)[fd] else NONE_EVENT
  {
  }

  /** A poller's channels and interests are what the run so far registered. */
  ghost predicate PollHolds(p: PollPoller, m: map<nat, Bits>)
    reads p, p.channels.Values
  {
    && p.Valid() && p.channels.Keys == m.Keys && p.Wanted() == NonEmpty(m)
    && (forall fd | fd in m :: p.channels[fd].events == m[fd] && p.channels[fd].index >= 0)
    && EntriesAre(p.Index(), p.pollfds, m)
  }

  ghost predicate EPollHolds(e: EPollPoller, m: map<nat, Bits>)
    reads e, e.channels.Values
  {
    && e.Valid() && e.channels.Keys == m.Keys && e.Wanted() == NonEmpty(m)
    && (forall fd | fd in m :: e.channels[fd].events == m[fd] && e.channels[fd].index != NEW)
  }

  function Next(m: map<nat, Bits>, op: Op): map<nat, Bits> {
    if op.Update? then m[op.fd := op.events] else m - {op.fd}
  }

  lemma NextInterests(m: map<nat, Bits>, op: Op)
    ensures Updated(NonEmpty(m), op.fd, if op.Update? then op.events else NONE_EVENT) == NonEmpty(Next(m, op))
  {
  }

  method PollUpdate(p: PollPoller, ghost m: map<nat, Bits>, fd: nat, events: Bits)
    requires PollHolds(p, m) && InOrder(m, Update(fd, events))
    modifies p, p.channels.Values
    ensures PollHolds(p, m[fd := events])
    ensures forall c | c in p.channels.Values :: c in old(p.channels.Values) || fresh(c)
  {
    hide Bijection, InterestsOf, NonEmpty, Updated, EntriesAre, Placed, InOrder;
    FirstCarries(m, fd, events);
    var ch: Channel;
    if fd in p.channels {
      ch := p.channels[fd];
      UsableAgain(p, fd);
    } else {
      ch := new Channel(fd);
    }
    PollPut(p, m, ch, events);
  }

  method PollPut(p: PollPoller, ghost m: map<nat, Bits>, ch: Channel, events: Bits)
    requires PollHolds(p, m) && p.UpdateAsserts(ch) && (ch.fd in m || events != NONE_EVENT)
    requires ch.index == if ch.fd in p.channels then p.Index()[ch.fd] else -1
    modifies p, ch
    ensures PollHolds(p, m[ch.fd := events]) && p.channels == old(p.channels)[ch.fd := ch]
  {
    hide Bijection, InterestsOf, NonEmpty, Updated, EntriesAre, Placed;
    NextInterests(m, Update(ch.fd, events));
    PlacedEntries(p.Index(), p.pollfds, m, ch.fd, events);
    ch.events := events;
    p.UpdateChannel(ch);
    assert p.channels.Keys == m[ch.fd := events].Keys;
    forall f | f in m[ch.fd := events]
      ensures p.channels[f].events == m[ch.fd := events][f] && p.channels[f].index >= 0
    {
      assert f != ch.fd ==> old(p.channels[f]) == p.channels[f] && p.channels[f].fd == f;
    }
  }

  lemma FirstCarries(m: map<nat, Bits>, fd: nat, events: Bits)
    requires InOrder(m, Update(fd, events))
    ensures fd in m || events != NONE_EVENT
  {
  }

  lemma UsableAgain(p: PollPoller, fd: nat)
    requires p.Valid() && fd in p.channels && p.channels[fd].index >= 0
    ensures p.UpdateAsserts(p.channels[fd]) && p.channels[fd].index == p.Index()[fd]
  {
    var i := p.Index()[fd];
    assert 0 <= i < |p.pollfds| && Decode(p.pollfds[i].fd) == fd;
  }

  method PollRemove(p: PollPoller, ghost m: map<nat, Bits>, fd: nat)
    requires PollHolds(p, m) && InOrder(m, Remove(fd))
    modifies p, p.channels.Values
    ensures PollHolds(p, m - {fd})
    ensures forall c | c in p.channels.Values :: c in old(p.channels.Values)
  {
    assert p.pollfds[p.Index()[fd]].fd == -1 - fd;
    hide Bijection, InterestsOf, NonEmpty, Updated, EntriesAre, EntriesFollow;
    ghost var ix, ps := p.Index(), p.pollfds;
    NextInterests(m, Remove(fd));
    EntryEvents(ix, ps, fd);
    UsableAgain(p, fd);
    p.RemoveChannel(p.channels[fd]);
    assert p.channels.Keys == (m - {fd}).Keys;
    FollowedEntries(ix, ps, p.Index(), p.pollfds, m, fd);
    forall f | f in m - {fd} ensures p.channels[f].events == m[f] && p.channels[f].index >= 0 {
      EntryEvents(p.Index(), p.pollfds, f);
      assert p.Index()[f] == p.channels[f].index;
      assert old(p.channels[f]) == p.channels[f];
    }
  }

  method EPollUpdate(e: EPollPoller, ghost m: map<nat, Bits>, fd: nat, events: Bits)
    requires EPollHolds(e, m) && InOrder(m, Update(fd, events))
    modifies e, e.channels.Values
    ensures EPollHolds(e, m[fd := events])
    ensures forall c | c in e.channels.Values :: c in old(e.channels.Values) || fresh(c)
  {
    hide NonEmpty, Updated;
    NextInterests(m, Update(fd, events));
    var ch: Channel;
    if fd in e.channels {
      ch := e.channels[fd];
    } else {
      ch := new Channel(fd);
    }
    ch.events := events;
    e.UpdateChannel(ch);
    assert e.channels.Keys == m[fd := events].Keys;
    forall f | f in m[fd := events]
      ensures e.channels[f].events == m[fd := events][f] && e.channels[f].index != NEW
    {
      assert f != fd ==> old(e.channels[f]) == e.channels[f] && e.channels[f].fd == f;
    }
  }

  method EPollRemove(e: EPollPoller, ghost m: map<nat, Bits>, fd: nat)
    requires EPollHolds(e, m) && InOrder(m, Remove(fd))
    modifies e, e.channels.Values
    ensures EPollHolds(e, m - {fd})
    ensures forall c | c in e.channels.Values :: c in old(e.channels.Values)
  {
    hide NonEmpty, Updated;
    NextInterests(m, Remove(fd));
    e.RemoveChannel(e.channels[fd]);
    assert e.channels.Keys == (m - {fd}).Keys;
    forall f | f in m - {fd} ensures e.channels[f].events == m[f] && e.channels[f].index != NEW {
      assert old(e.channels[f]) == e.channels[f] && e.channels[f].fd == f;
    }
  }

  /** Over every run in order, both pollers end up with the interests the run asks for. */
  method Replay(ops: seq<Op>) returns (p: PollPoller, e: EPollPoller)
    requires AllInOrder(ops)
    ensures p.Valid() && e.Valid() && p.Wanted() == After(ops) && e.Wanted() == After(ops)
  {
    hide PollHolds, EPollHolds, InOrder, Next, After;
    p := new PollPoller();
    e := new EPollPoller();
    NothingHeld(p, e);
    assert ops[..0] == [];
    for k := 0 to |ops|
      invariant PollHolds(p, Registered(ops[..k])) && EPollHolds(e, Registered(ops[..k]))
      invariant fresh(p) && fresh(e) && fresh(p.channels.Values) && fresh(e.channels.Values)
      invariant p.channels.Values !! e.channels.Values
    {
      RegisteredNext(ops, k);
      StepBoth(p, e, Registered(ops[..k]), ops[k]);
    }
    assert ops[..|ops|] == ops;
    Held(p, e, Registered(ops));
    AfterIsRegistered(ops);
  }

  method StepBoth(p: PollPoller, e: EPollPoller, ghost m: map<nat, Bits>, op: Op)
    requires PollHolds(p, m) && EPollHolds(e, m) && InOrder(m, op) && p.channels.Values !! e.channels.Values
    modifies p, e, p.channels.Values, e.channels.Values
    ensures PollHolds(p, Next(m, op)) && EPollHolds(e, Next(m, op)) && p.channels.Values !! e.channels.Values
    ensures forall c | c in p.channels.Values :: c in old(p.channels.Values) || fresh(c)
    ensures forall c | c in e.channels.Values :: c in old(e.channels.Values) || fresh(c)
  {
    hide PollHolds, EPollHolds, InOrder;
    if op.Update? {
      PollUpdate(p, m, op.fd, op.events);
      EPollUpdate(e, m, op.fd, op.events);
    } else {
      PollRemove(p, m, op.fd);
      EPollRemove(e, m, op.fd);
    }
  }

  lemma NothingHeld(p: PollPoller, e: EPollPoller)
    requires p.Valid() && p.channels == map[] && p.Wanted() == map[]
    requires e.Valid() && e.channels == map[] && e.Wanted() == map[]
    ensures PollHolds(p, map[]) && EPollHolds(e, map[])
  {
  }

  lemma Held(p: PollPoller, e: EPollPoller, m: map<nat, Bits>)
    requires PollHolds(p, m) && EPollHolds(e, m)
    ensures p.Valid() && e.Valid() && p.Wanted() == NonEmpty(m) && e.Wanted() == NonEmpty(m)
  {
  }

  lemma RegisteredNext(ops: seq<Op>, k: nat)
    requires AllInOrder(ops) && k < |ops|
    ensures InOrder(Registered(ops[..k]), ops[k]) && Registered(ops[..k + 1]) == Next(Registered(ops[..k]), ops[k])
  {
    assert ops[..k + 1][..k] == ops[..k];
  }

  lemma {:induction false} AfterIsRegistered(ops: seq<Op>)
    ensures After(ops) == NonEmpty(Registered(ops))
  {
    if ops != [] {
      AfterIsRegistered(ops[..|ops| - 1]);
    }
  }
}
