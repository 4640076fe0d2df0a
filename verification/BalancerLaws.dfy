/**
  What a backend session of the RPC balancer forwards, keeps and sends back, told
  from the messages alone (examples/protobuf/rpcbalancer/balancer_raw.cc).
*/
module BalancerLaws {
  import opened Codec
  import opened Options
  import opened RawFrames
  import opened RpcBalancer

  /** Whether the backend is connected: what the last change of the link said. */
  function UpAfter(steps: seq<Step>): bool {
    if steps == [] then false else
      var last := steps[|steps| - 1];
      if last.Link? then last.up else UpAfter(steps[..|steps| - 1])
  }

  /** The requests that came while it was, in order. */
  function Requests(steps: seq<Step>): seq<(Client, Msg)> {
    if steps == [] then [] else
      var pre, last := steps[..|steps| - 1], steps[|steps| - 1];
      Requests(pre) + (if last.FromClient? && UpAfter(pre) then [(last.client, last.msg)] else [])
  }

  /** The last step of a run. */
  lemma LastStep(tag: Bytes, steps: seq<Step>)
    requires Exec(tag, steps).Some? && steps != []
    ensures var n := |steps| - 1;
      && Exec(tag, steps[..n]).Some? && Enabled(tag, Exec(tag, steps[..n]).value, steps[n])
      && Exec(tag, steps).value == Next(tag, Exec(tag, steps[..n]).value, steps[n])
  {
  }

  lemma {:induction false} Prefixes(tag: Bytes, steps: seq<Step>, i: nat)
    requires Exec(tag, steps).Some? && i <= |steps|
    ensures Exec(tag, steps[..i]).Some?
    decreases |steps|
  {
    if i == |steps| {
      assert steps[..i] == steps;
    } else {
      Prefixes(tag, steps[..|steps| - 1], i);
      assert steps[..|steps| - 1][..i] == steps[..i];
    }
  }

  lemma StepReads(tag: Bytes, steps: seq<Step>, i: nat)
    requires Exec(tag, steps).Some? && i < |steps|
    ensures StepReadable(tag, steps[i])
  {
    Prefixes(tag, steps, i + 1);
    LastStep(tag, steps[..i + 1]);
  }

  /** Every request that comes while the backend is connected is forwarded, in order, and nothing else is. */
  lemma {:induction false} ForwardedExactly(tag: Bytes, steps: seq<Step>)
    requires Exec(tag, steps).Some?
    ensures var t := Exec(tag, steps).value;
      && t.s.up == UpAfter(steps) && |t.forwarded| == |Requests(steps)|
      && (forall k: nat | k < |t.forwarded| ::
            (t.forwarded[k].client, t.forwarded[k].msg) == Requests(steps)[k] && ForwardOk(tag, t.forwarded[k], k))
  {
    RunInv(tag, steps);
    if steps != [] {
      var n := |steps| - 1;
      LastStep(tag, steps);
      ForwardedExactly(tag, steps[..n]);
      hide Exec, Inv, Readable, SetId, IdOf, ForwardOk;
      var t, t' := Exec(tag, steps[..n]).value, Exec(tag, steps).value;
      ForwardsOk(tag, steps);
      assert |t'.forwarded| == |t.forwarded| || t'.forwarded[..|t.forwarded|] == t.forwarded;
    }
  }

  lemma ForwardsOk(tag: Bytes, steps: seq<Step>)
    requires Exec(tag, steps).Some?
    ensures var t := Exec(tag, steps).value;
      forall k: nat | k < |t.forwarded| :: ForwardOk(tag, t.forwarded[k], k)
  {
    RunInv(tag, steps);
  }

  // ---------------------------------------------------------------- what is outstanding

  /** The i-th step is a request that is forwarded, under this id. */
  predicate SentAs(steps: seq<Step>, i: nat, id: U64) {
    i < |steps| && steps[i].FromClient? && UpAfter(steps[..i]) && IdUsed(|Requests(steps[..i])|) == id
  }

  /** The j-th step is a reply under this id. */
  predicate AnswersTo(tag: Bytes, steps: seq<Step>, j: nat, id: U64) {
    j < |steps| && steps[j].FromBackend? && Readable(tag, steps[j].msg) && IdOf(tag, steps[j].msg) == id
  }

  /** The request of the i-th step went out under this id and no reply under it has come since. */
  ghost predicate OpenSince(tag: Bytes, steps: seq<Step>, id: U64, i: nat) {
    SentAs(steps, i, id) && forall j: nat | i < j < |steps| :: !AnswersTo(tag, steps, j, id)
  }

  lemma SamePrefix(tag: Bytes, steps: seq<Step>, i: nat, id: U64)
    requires steps != [] && i < |steps| - 1
    ensures var pre := steps[..|steps| - 1];
      && pre[i] == steps[i] && pre[..i] == steps[..i]
      && (SentAs(pre, i, id) <==> SentAs(steps, i, id))
      && (AnswersTo(tag, pre, i, id) <==> AnswersTo(tag, steps, i, id))
  {
    assert steps[..|steps| - 1][..i] == steps[..i];
  }

  lemma OpenLater(tag: Bytes, steps: seq<Step>, id: U64, i: nat)
    requires steps != [] && i < |steps| - 1
    ensures var n := |steps| - 1;
      OpenSince(tag, steps, id, i) <==> OpenSince(tag, steps[..n], id, i) && !AnswersTo(tag, steps, n, id)
  {
    hide SentAs, AnswersTo;
    var n: nat := |steps| - 1;
    SamePrefix(tag, steps, i, id);
    forall j: nat | i < j < n
      ensures AnswersTo(tag, steps[..n], j, id) <==> AnswersTo(tag, steps, j, id)
    {
      SamePrefix(tag, steps, j, id);
    }
  }

  lemma OpenSnoc(tag: Bytes, steps: seq<Step>, id: U64, i: nat)
    requires steps != []
    ensures var n: nat := |steps| - 1;
      OpenSince(tag, steps, id, i) <==>
        (i == n && SentAs(steps, n, id)) || (OpenSince(tag, steps[..n], id, i) && !AnswersTo(tag, steps, n, id))
  {
    var n: nat := |steps| - 1;
    OpenRange(tag, steps, id, i);
    OpenRange(tag, steps[..n], id, i);
    OpenNow(tag, steps, id);
    hide OpenSince, AnswersTo;
    if i < n {
      OpenLater(tag, steps, id, i);
    }
  }

  /** The session keeps exactly the requests that went out and were not answered, each under its id. */
  lemma {:induction false} OutstandingExactly(tag: Bytes, steps: seq<Step>, id: U64)
    requires Exec(tag, steps).Some?
    ensures var o := Exec(tag, steps).value.s.outstandings;
      && (id in o <==> exists i: nat :: OpenSince(tag, steps, id, i))
      && (forall i: nat | OpenSince(tag, steps, id, i) :: KeptFor(tag, steps, o, id, i))
    decreases |steps|
  {
    hide OpenSince, SentAs, AnswersTo, KeptFor;
    if steps == [] {
      forall i: nat
        ensures !OpenSince(tag, steps, id, i)
      {
        OpenRange(tag, steps, id, i);
      }
    } else {
      var n: nat := |steps| - 1;
      var pre := steps[..n];
      OutstandingStep(tag, steps, id);
      OutstandingExactly(tag, pre, id);
      hide Exec;
      forall i: nat
        ensures OpenSince(tag, steps, id, i) <==>
          (i == n && SentAs(steps, n, id)) || (OpenSince(tag, pre, id, i) && !AnswersTo(tag, steps, n, id))
      {
        OpenSnoc(tag, steps, id, i);
      }
      var o, o' := Exec(tag, pre).value.s.outstandings, Exec(tag, steps).value.s.outstandings;
      if SentAs(steps, n, id) {
        assert OpenSince(tag, steps, id, n);
        KeptNow(tag, steps, o', id);
      } else if !AnswersTo(tag, steps, n, id) {
        forall i: nat | OpenSince(tag, pre, id, i)
          ensures KeptFor(tag, steps, o', id, i)
        {
          KeptSame(tag, steps, o, o', id, i);
        }
      }
    }
  }

  /** The session remembers the client and the id of the i-th step's request. */
  predicate KeptFor(tag: Bytes, steps: seq<Step>, o: map<U64, Request>, id: U64, i: nat) {
    && i < |steps| && steps[i].FromClient? && Readable(tag, steps[i].msg)
    && id in o && o[id] == Request(IdOf(tag, steps[i].msg), steps[i].client)
  }

  lemma KeptNow(tag: Bytes, steps: seq<Step>, o: map<U64, Request>, id: U64)
    requires steps != [] && SentAs(steps, |steps| - 1, id)
    requires var n := |steps| - 1;
      && Readable(tag, steps[n].msg) && id in o && o[id] == Request(IdOf(tag, steps[n].msg), steps[n].client)
    ensures KeptFor(tag, steps, o, id, |steps| - 1)
  {
  }

  lemma KeptSame(tag: Bytes, steps: seq<Step>, o: map<U64, Request>, o': map<U64, Request>, id: U64, i: nat)
    requires steps != [] && KeptFor(tag, steps[..|steps| - 1], o, id, i) && id in o' && o'[id] == o[id]
    ensures KeptFor(tag, steps, o', id, i)
  {
    assert steps[..|steps| - 1][i] == steps[i];
  }

  lemma OpenRange(tag: Bytes, steps: seq<Step>, id: U64, i: nat)
    ensures OpenSince(tag, steps, id, i) ==> i < |steps| && steps[i].FromClient?
  {
  }

  lemma OpenNow(tag: Bytes, steps: seq<Step>, id: U64)
    requires steps != []
    ensures OpenSince(tag, steps, id, |steps| - 1) <==> SentAs(steps, |steps| - 1, id)
  {
  }

  /** What the last step does to one id. */
  lemma OutstandingStep(tag: Bytes, steps: seq<Step>, id: U64)
    requires Exec(tag, steps).Some? && steps != []
    ensures var n: nat := |steps| - 1;
      && Exec(tag, steps[..n]).Some?
      && var o, o' := Exec(tag, steps[..n]).value.s.outstandings, Exec(tag, steps).value.s.outstandings;
         if SentAs(steps, n, id) then
           && id !in o && Readable(tag, steps[n].msg)
           && id in o' && o'[id] == Request(IdOf(tag, steps[n].msg), steps[n].client)
         else if AnswersTo(tag, steps, n, id) then id !in o'
         else (id in o' <==> id in o) && (id in o ==> o'[id] == o[id])
  {
    var n: nat := |steps| - 1;
    LastStep(tag, steps);
    ForwardedExactly(tag, steps[..n]);
    RunInv(tag, steps[..n]);
    hide Exec, Readable, IdOf, SetId, Inv, IdUsed, ForwardOk;
    var t := Exec(tag, steps[..n]).value;
    NextIdIs(tag, t);
  }

  lemma NextIdIs(tag: Bytes, t: Trace)
    requires Inv(tag, t)
    ensures NextId(t.s.nextId) == IdUsed(|t.forwarded|)
  {
  }

  // ---------------------------------------------------------------- what is sent back

  /** A reply goes, with the request's own id, to the client whose request is open under its id, if still there. */
  lemma ReplyExactly(tag: Bytes, steps: seq<Step>, reply: Msg, alive: set<Client>)
    requires Exec(tag, steps + [FromBackend(reply, alive)]).Some?
    ensures Exec(tag, steps).Some? && Readable(tag, reply)
    ensures var d := Exec(tag, steps).value.delivered;
      var d' := Exec(tag, steps + [FromBackend(reply, alive)]).value.delivered;
      var id := IdOf(tag, reply);
      && ((forall i: nat :: !OpenSince(tag, steps, id, i)) ==> d' == d)
      && (forall i: nat | OpenSince(tag, steps, id, i) ::
            && i < |steps| && steps[i].FromClient? && Readable(tag, steps[i].msg)
            && (steps[i].client !in alive ==> d' == d)
            && (steps[i].client in alive ==>
                  && |d'| == |d| + 1 && d'[..|d|] == d
                  && d'[|d|].client == steps[i].client && d'[|d|].reply == reply
                  && d'[|d|].out == SetId(tag, reply, IdOf(tag, steps[i].msg))))
  {
    var all := steps + [FromBackend(reply, alive)];
    LastStep(tag, all);
    assert all[..|all| - 1] == steps;
    OutstandingExactly(tag, steps, IdOf(tag, reply));
    hide Exec, OpenSince, SetId, IdOf, Readable;
  }

  /** No other step sends anything back. */
  lemma OnlyRepliesDeliver(tag: Bytes, steps: seq<Step>)
    requires Exec(tag, steps).Some? && steps != [] && !steps[|steps| - 1].FromBackend?
    ensures Exec(tag, steps[..|steps| - 1]).Some?
    ensures Exec(tag, steps).value.delivered == Exec(tag, steps[..|steps| - 1]).value.delivered
  {
    LastStep(tag, steps);
  }
}
