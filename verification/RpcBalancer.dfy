/**
  One backend session of the RPC balancer: requests of many clients share a
  connection under fresh ids, and each reply is sent back under its own.
  BackendSession of examples/protobuf/rpcbalancer/balancer_raw.cc.
*/
module RpcBalancer {
  import opened Codec
  import opened Options
  import opened RawFrames

  type Client = nat

  datatype Request = Request(origId: U64, client: Client)

  /** A frame whose id can be rewritten in place, or a message the codec had to decode. */
  datatype Msg = Raw(frame: Bytes) | Rpc(id: U64, rest: Bytes)

  predicate Readable(tag: Bytes, m: Msg) {
    m.Raw? ==> Offered(tag, m.frame) && ParseId(tag, m.frame).Some?
  }

  function IdOf(tag: Bytes, m: Msg): U64
    requires Readable(tag, m)
  {
    if m.Raw? then ParseId(tag, m.frame).value else m.id
  }

  /** set_id, and updateId for a raw frame. */
  function SetId(tag: Bytes, m: Msg, id: U64): Msg
    requires Readable(tag, m)
  {
    if m.Raw? then
      LongEnough(tag, m.frame);
      Raw(WithId(m.frame, IdAt(tag), id))
    else m.(id := id)
  }

  /** Whether the message has room for its whole id; a decoded one always has. */
  predicate RoomForId(tag: Bytes, m: Msg) {
    m.Raw? ==> Roomy(tag, m.frame)
  }

  lemma SetIdReadsBack(tag: Bytes, m: Msg, id: U64)
    requires Readable(tag, m) && RoomForId(tag, m)
    ensures Readable(tag, SetId(tag, m, id)) && IdOf(tag, SetId(tag, m, id)) == id
    ensures RoomForId(tag, SetId(tag, m, id)) && SetId(tag, SetId(tag, m, id), IdOf(tag, m)) == m
  {
    hide ParseId, WithId;
    if m.Raw? {
      Reparses(tag, m.frame, id);
      UpdateRestores(tag, m.frame, id);
    }
  }

  // ---------------------------------------------------------------- the session

  function NextId(id: U64): U64 {
    (id + 1) % 0x1_0000_0000_0000_0000
  }

  datatype Session = Session(up: bool, nextId: U64, outstandings: map<U64, Request>)

  function SendStep(tag: Bytes, s: Session, m: Msg, client: Client): (Session, Option<Msg>)
    requires Readable(tag, m)
  {
    if !s.up then (s, None) else
      var id := NextId(s.nextId);
      (Session(s.up, id, s.outstandings[id := Request(IdOf(tag, m), client)]), Some(SetId(tag, m, id)))
  }

  function ReplyStep(tag: Bytes, s: Session, m: Msg, alive: set<Client>): (Session, Option<(Client, Msg)>)
    requires Readable(tag, m)
  {
    var id := IdOf(tag, m);
    if id !in s.outstandings then (s, None) else
      var r := s.outstandings[id];
      (s.(outstandings := s.outstandings - {id}),
       if r.client in alive then Some((r.client, SetId(tag, m, r.origId))) else None)
  }

  class BackendSession {
    const tag: Bytes
    var connected: bool
    var nextId: U64
    var outstandings: map<U64, Request>

    ghost function State(): Session
      reads this
    {
      Session(connected, nextId, outstandings)
    }

    constructor (t: Bytes)
      ensures tag == t && State() == Session(false, 0, map[])
    {
      tag, connected, nextId, outstandings := t, false, 0, map[];
    }

    method OnConnection(up: bool)
      modifies this
      ensures State() == old(State()).(up := up)
    {
      connected := up;
    }

    /** What goes out to the backend, or None when it is down. */
    method Send(msg: Msg, client: Client) returns (out: Option<Msg>)
      requires Readable(tag, msg)
      requires connected ==> NextId(nextId) !in outstandings
      modifies this
      ensures (State(), out) == SendStep(tag, old(State()), msg, client)
      ensures out.Some? == old(connected)
      ensures connected ==>
        && nextId == NextId(old(nextId)) && out == Some(SetId(tag, msg, nextId))
        && outstandings == old(outstandings)[nextId := Request(IdOf(tag, msg), client)]
    {
      if connected {
        nextId := NextId(nextId);
        var id := nextId;
        var r := Request(IdOf(tag, msg), client);
        assert id !in outstandings;
        outstandings := outstandings[id := r];
        out := Some(SetId(tag, msg, id));
      } else {
        out := None;
      }
    }

    /** What goes back to a client; alive are the clients whose connection is still there. */
    method OnMessage(msg: Msg, alive: set<Client>) returns (out: Option<(Client, Msg)>)
      requires Readable(tag, msg)
      modifies this
      ensures (State(), out) == ReplyStep(tag, old(State()), msg, alive)
    {
      var id := IdOf(tag, msg);
      out := None;
      if id in outstandings {
        var origId, client := outstandings[id].origId, outstandings[id].client;
        outstandings := outstandings - {id};
        if client in alive {
          out := Some((client, SetId(tag, msg, origId)));
        }
      }
    }
  }

  // ---------------------------------------------------------------- runs

  datatype Step =
    | Link(up: bool)
    | FromClient(client: Client, msg: Msg)
    | FromBackend(msg: Msg, alive: set<Client>)

  /** A request that went out: what the client sent, and what the backend got. */
  datatype Forward = Forward(client: Client, msg: Msg, out: Msg)

  /** A reply that went back: to which forwarded request, what the backend sent, what the client got. */
  datatype Delivery = Delivery(of: nat, client: Client, reply: Msg, out: Msg)

  /** The session with its history; pending says which request each outstanding id stands for. */
  datatype Trace = Trace(s: Session, forwarded: seq<Forward>, pending: map<U64, nat>, delivered: seq<Delivery>)

  const Start: Trace := Trace(Session(false, 0, map[]), [], map[], [])

  /** The bytes make sense, and the assertion in send() holds. */
  predicate Enabled(tag: Bytes, t: Trace, step: Step) {
    match step
    case Link(_) => true
    case FromClient(_, m) => Readable(tag, m) && (t.s.up ==> NextId(t.s.nextId) !in t.s.outstandings)
    case FromBackend(m, _) => Readable(tag, m)
  }

  function Next(tag: Bytes, t: Trace, step: Step): Trace
    requires Enabled(tag, t, step)
  {
    match step
    case Link(up) => t.(s := t.s.(up := up))
    case FromClient(client, m) =>
      var (s, out) := SendStep(tag, t.s, m, client);
      if out.None? then t else
        Trace(s, t.forwarded + [Forward(client, m, out.value)], t.pending[s.nextId := |t.forwarded|], t.delivered)
    case FromBackend(m, alive) =>
      var id := IdOf(tag, m);
      var (s, out) := ReplyStep(tag, t.s, m, alive);
      Trace(s, t.forwarded, t.pending - {id},
        if out.None? then t.delivered
        else t.delivered + [Delivery(if id in t.pending then t.pending[id] else 0, out.value.0, m, out.value.1)])
  }

  /** The session after these steps; None if one of them could not be taken. */
  function Exec(tag: Bytes, steps: seq<Step>): Option<Trace> {
    if steps == [] then Some(Start) else
      var n := |steps| - 1;
      match Exec(tag, steps[..n])
      case None => None
      case Some(t) => if Enabled(tag, t, steps[n]) then Some(Next(tag, t, steps[n])) else None
  }

  /** The id the k-th forwarded request went out under. */
  function IdUsed(k: nat): U64 {
    (k + 1) % 0x1_0000_0000_0000_0000
  }

  predicate ForwardOk(tag: Bytes, f: Forward, k: nat) {
    Readable(tag, f.msg) && f.out == SetId(tag, f.msg, IdUsed(k))
  }

  /** A delivered reply came under the id of the request it answers and went to its client with its id. */
  predicate DeliveryOk(tag: Bytes, forwarded: seq<Forward>, d: Delivery) {
    && d.of < |forwarded| && Readable(tag, d.reply) && Readable(tag, forwarded[d.of].msg)
    && IdOf(tag, d.reply) == IdUsed(d.of)
    && d.client == forwarded[d.of].client
    && d.out == SetId(tag, d.reply, IdOf(tag, forwarded[d.of].msg))
  }

  ghost predicate Inv(tag: Bytes, t: Trace) {
    && t.s.nextId == |t.forwarded| % 0x1_0000_0000_0000_0000
    && (forall k: nat | k < |t.forwarded| :: ForwardOk(tag, t.forwarded[k], k))
    && t.pending.Keys == t.s.outstandings.Keys
    && (forall id | id in t.pending :: PendingOk(tag, t, id))
    && (forall i | 0 <= i < |t.delivered| :: DeliveryOk(tag, t.forwarded, t.delivered[i]))
    && (forall i, j | 0 <= i < j < |t.delivered| :: t.delivered[i].of != t.delivered[j].of)
  }

  ghost predicate PendingOk(tag: Bytes, t: Trace, id: U64)
    requires id in t.pending
  {
    var k := t.pending[id];
    && k < |t.forwarded| && id == IdUsed(k) && id in t.s.outstandings && Readable(tag, t.forwarded[k].msg)
    && t.s.outstandings[id] == Request(IdOf(tag, t.forwarded[k].msg), t.forwarded[k].client)
    && forall i | 0 <= i < |t.delivered| :: t.delivered[i].of != k
  }

  lemma IdSuccessor(k: nat)
    ensures NextId(k % 0x1_0000_0000_0000_0000) == IdUsed(k) == (k + 1) % 0x1_0000_0000_0000_0000
  {
  }

  lemma ForwardInv(tag: Bytes, t: Trace, step: Step)
    requires Inv(tag, t) && step.FromClient? && Enabled(tag, t, step)
    ensures Inv(tag, Next(tag, t, step))
  {
    hide IdOf, SetId, Readable, NextId, IdUsed;
    IdSuccessor(|t.forwarded|);
    var t' := Next(tag, t, step);
    if t.s.up {
      forall id | id in t'.pending
        ensures PendingOk(tag, t', id)
      {
        assert id in t.pending ==> PendingOk(tag, t, id);
      }
      forall i | 0 <= i < |t'.delivered|
        ensures DeliveryOk(tag, t'.forwarded, t'.delivered[i])
      {
        assert DeliveryOk(tag, t.forwarded, t.delivered[i]);
      }
    }
  }

  lemma ReplyInv(tag: Bytes, t: Trace, step: Step)
    requires Inv(tag, t) && step.FromBackend? && Enabled(tag, t, step)
    ensures Inv(tag, Next(tag, t, step))
  {
    hide IdOf, SetId, Readable, NextId, IdUsed;
    var t', id := Next(tag, t, step), IdOf(tag, step.msg);
    if id in t.pending {
      assert PendingOk(tag, t, id);
    }
    forall other | other in t'.pending
      ensures PendingOk(tag, t', other)
    {
      assert PendingOk(tag, t, other);
    }
  }

  lemma {:induction false} RunInv(tag: Bytes, steps: seq<Step>)
    requires Exec(tag, steps).Some?
    ensures Inv(tag, Exec(tag, steps).value)
  {
    if steps != [] {
      var n := |steps| - 1;
      RunInv(tag, steps[..n]);
      var t := Exec(tag, steps[..n]).value;
      hide Inv;
      match steps[n]
      case Link(_) => LinkInv(tag, t, steps[n]);
      case FromClient(_, _) => ForwardInv(tag, t, steps[n]);
      case FromBackend(_, _) => ReplyInv(tag, t, steps[n]);
    }
  }

  lemma LinkInv(tag: Bytes, t: Trace, step: Step)
    requires Inv(tag, t) && step.Link?
    ensures Inv(tag, Next(tag, t, step))
  {
    hide IdOf, SetId, Readable, NextId, IdUsed;
    var t' := Next(tag, t, step);
    forall id | id in t'.pending
      ensures PendingOk(tag, t', id)
    {
      assert PendingOk(tag, t, id);
    }
  }

  /**
    In every run, each reply that reaches a client answers a request of that very
    client, came back under the id the request was forwarded under, and no request
    is answered twice. A reply with room for its id carries the client's own id.
  */
  lemma RepliesFindTheirClient(tag: Bytes, steps: seq<Step>, i: nat)
    requires Exec(tag, steps).Some? && i < |Exec(tag, steps).value.delivered|
    ensures var t := Exec(tag, steps).value;
      var d := t.delivered[i];
      && DeliveryOk(tag, t.forwarded, d)
      && (forall j: nat | j < |t.delivered| && t.delivered[j].of == d.of :: j == i)
      && (RoomForId(tag, d.reply) ==>
            && Readable(tag, d.out) && IdOf(tag, d.out) == IdOf(tag, t.forwarded[d.of].msg)
            && SetId(tag, d.out, IdOf(tag, d.reply)) == d.reply)
  {
    hide IdOf, SetId, Readable, IdUsed, RoomForId, Exec;
    RunInv(tag, steps);
    var t := Exec(tag, steps).value;
    var d := t.delivered[i];
    assert DeliveryOk(tag, t.forwarded, d);
    if RoomForId(tag, d.reply) {
      SetIdReadsBack(tag, d.reply, IdOf(tag, t.forwarded[d.of].msg));
    }
  }

  /** The backend sees each roomy request under the id that the session keeps for it. */
  lemma ForwardedUnderFreshId(tag: Bytes, steps: seq<Step>, k: nat)
    requires Exec(tag, steps).Some? && k < |Exec(tag, steps).value.forwarded|
    requires RoomForId(tag, Exec(tag, steps).value.forwarded[k].msg)
    ensures var f := Exec(tag, steps).value.forwarded[k];
      Readable(tag, f.out) && IdOf(tag, f.out) == IdUsed(k)
  {
    hide IdOf, SetId, Readable, IdUsed, RoomForId, Exec;
    RunInv(tag, steps);
    var f := Exec(tag, steps).value.forwarded[k];
    assert ForwardOk(tag, f, k);
    SetIdReadsBack(tag, f.msg, IdUsed(k));
  }

  /** A request still outstanding has not been answered, so a reply to it will find its client. */
  lemma OutstandingUnanswered(tag: Bytes, steps: seq<Step>, reply: Msg, alive: set<Client>)
    requires Exec(tag, steps).Some? && Readable(tag, reply)
    requires IdOf(tag, reply) in Exec(tag, steps).value.s.outstandings
    ensures var t := Exec(tag, steps).value;
      exists k: nat | k < |t.forwarded| && IdUsed(k) == IdOf(tag, reply) && Readable(tag, t.forwarded[k].msg) ::
        && (forall i | 0 <= i < |t.delivered| :: t.delivered[i].of != k)
        && ReplyStep(tag, t.s, reply, alive).1 ==
             if t.forwarded[k].client in alive
             then Some((t.forwarded[k].client, SetId(tag, reply, IdOf(tag, t.forwarded[k].msg)))) else None
  {
    hide IdOf, SetId, Readable, IdUsed, Exec;
    RunInv(tag, steps);
    var t := Exec(tag, steps).value;
    assert PendingOk(tag, t, IdOf(tag, reply));
    var k := t.pending[IdOf(tag, reply)];
    assert IdUsed(k) == IdOf(tag, reply);
  }

  predicate StepReadable(tag: Bytes, step: Step) {
    match step
    case Link(_) => true
    case FromClient(_, m) => Readable(tag, m)
    case FromBackend(m, _) => Readable(tag, m)
  }

  /** Until the 64-bit counter wraps, the assertion in send() cannot fail and ids are never reused. */
  lemma {:induction false} AssertionHolds(tag: Bytes, steps: seq<Step>)
    requires forall i | 0 <= i < |steps| :: StepReadable(tag, steps[i])
    requires |steps| < 0xffff_ffff_ffff_ffff
    ensures Exec(tag, steps).Some? && |Exec(tag, steps).value.forwarded| <= |steps|
    ensures forall j: nat, k: nat | j < k < |Exec(tag, steps).value.forwarded| :: IdUsed(j) != IdUsed(k)
  {
    if steps != [] {
      var n := |steps| - 1;
      AssertionHolds(tag, steps[..n]);
      RunInv(tag, steps[..n]);
      assert StepReadable(tag, steps[n]);
      NextIdFree(tag, Exec(tag, steps[..n]).value);
    }
  }

  lemma NextIdFree(tag: Bytes, t: Trace)
    requires Inv(tag, t) && |t.forwarded| < 0xffff_ffff_ffff_ffff
    ensures NextId(t.s.nextId) !in t.s.outstandings
  {
    hide IdOf, SetId, Readable;
    var id := NextId(t.s.nextId);
    assert id == |t.forwarded| + 1;
    assert id in t.pending ==> PendingOk(tag, t, id);
  }
}
