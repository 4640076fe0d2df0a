/**
  What each memcached request does and answers, told from the requests carried
  out before it (examples/memcached/server/MemcacheServer.cc): an entry under a
  key is the one last stored there and not deleted since.
*/
module MemcacheLaws {
  import opened Memcache
  import opened Options

  /** Some request before the n-th stored an entry under k that is still there. */
  ghost predicate Present(log: seq<Commit>, n: nat, k: Key) {
    exists i: nat :: LastStored(log, n, k, i)
  }

  /** When storeItem goes through. */
  ghost predicate Succeeds(log: seq<Commit>, n: nat, item: Entry, policy: Policy) {
    match policy
    case Set => true
    case Add => !Present(log, n, item.key)
    case Cas => exists i: nat :: LastStored(log, n, item.key, i) && log[i].change.item.cas == item.cas
    case _ => Present(log, n, item.key)
  }

  lemma EntryOfLast(log: seq<Commit>, n: nat, k: Key, i: nat)
    requires LastStored(log, n, k, i)
    ensures i < n <= |log| && log[i].change.Insert?
  {
  }

  /** The run's log, with what the single map holds at each point. */
  lemma LogFacts(hash: Key -> nat, steps: seq<Step>, n: nat)
    requires Exec(hash, steps).Some? && n < |Exec(hash, steps).value.log|
    ensures var log := Exec(hash, steps).value.log;
      var k := KeyOf(log[n].op);
      && AsOneMap(log, n)
      && (k in OneMap(log[..n]) <==> Present(log, n, k))
      && (forall i: nat | LastStored(log, n, k, i) ::
            i < n && log[i].change.Insert? && Lookup(OneMap(log[..n]), k) == Some(log[i].change.item))
  {
    hide Exec, OneMap, PendingOk, Refines, TokensOk, LastStored, AsOneMap;
    RunInv(hash, steps);
    var log := Exec(hash, steps).value.log;
    var k := KeyOf(log[n].op);
    HeldIsLastStored(log, n, k);
    forall i: nat | LastStored(log, n, k, i)
      ensures i < n && log[i].change.Insert?
    {
      EntryOfLast(log, n, k, i);
    }
  }

  /** set, add, replace, append, prepend and cas: when they succeed, what they answer and what they store. */
  lemma PutExact(hash: Key -> nat, steps: seq<Step>, n: nat)
    requires Exec(hash, steps).Some? && n < |Exec(hash, steps).value.log| && Exec(hash, steps).value.log[n].op.Put?
    ensures var log := Exec(hash, steps).value.log;
      var item, policy, change := log[n].op.item, log[n].op.policy, log[n].change;
      && log[n].result == Stored(Succeeds(log, n, item, policy), Present(log, n, item.key))
      && (Succeeds(log, n, item, policy) <==> change.Insert?)
      && (!change.Insert? ==> change.Keep?)
      && (change.Insert? ==> change.item.key == item.key && change.item.cas == log[n].token)
      && (change.Insert? && !policy.Append? && !policy.Prepend? ==>
            Joins(change.item, item, policy, change.item))
      && (change.Insert? ==> forall i: nat | LastStored(log, n, item.key, i) ::
            i < n && log[i].change.Insert? && Joins(change.item, item, policy, log[i].change.item))
  {
    LogFacts(hash, steps, n);
    hide Exec, OneMap, LastStored;
    var log := Exec(hash, steps).value.log;
    assert AsOneMap(log, n);
  }

  lemma DeleteExact(hash: Key -> nat, steps: seq<Step>, n: nat)
    requires Exec(hash, steps).Some? && n < |Exec(hash, steps).value.log| && Exec(hash, steps).value.log[n].op.Delete?
    ensures var log := Exec(hash, steps).value.log;
      var present := Present(log, n, log[n].op.key);
      log[n].result == Deleted(present) && log[n].change == if present then Erase else Keep
  {
    LogFacts(hash, steps, n);
    hide Exec, OneMap, LastStored;
    assert AsOneMap(Exec(hash, steps).value.log, n);
  }

  lemma GetExact(hash: Key -> nat, steps: seq<Step>, n: nat)
    requires Exec(hash, steps).Some? && n < |Exec(hash, steps).value.log| && Exec(hash, steps).value.log[n].op.Get?
    ensures var log := Exec(hash, steps).value.log;
      var k := log[n].op.key;
      && log[n].change.Keep? && log[n].result.Found?
      && (log[n].result.item.None? <==> !Present(log, n, k))
      && (forall i: nat | LastStored(log, n, k, i) ::
            i < n && log[i].change.Insert? && log[n].result.item == Some(log[i].change.item))
  {
    LogFacts(hash, steps, n);
    hide Exec, OneMap, LastStored;
    assert AsOneMap(Exec(hash, steps).value.log, n);
  }

  /** After a delete that found its key, the key is absent until something is stored under it again. */
  lemma DeletedIsGone(log: seq<Commit>, d: nat, n: nat)
    requires d < n <= |log| && log[d].change.Erase?
    requires forall j: nat | d < j < n && KeyOf(log[j].op) == KeyOf(log[d].op) :: !log[j].change.Insert?
    ensures !Present(log, n, KeyOf(log[d].op))
  {
    var k := KeyOf(log[d].op);
    forall i: nat
      ensures !LastStored(log, n, k, i)
    {
    }
  }

  /** What the shards hold after a run is what was last stored and not deleted since. */
  lemma ShardsHoldLast(hash: Key -> nat, steps: seq<Step>, k: Key)
    requires Exec(hash, steps).Some?
    ensures var s := Exec(hash, steps).value;
      && |s.shards| == 4096 && hash(k) % 4096 < |s.shards|
      && (k in s.shards[hash(k) % 4096] <==> Present(s.log, |s.log|, k))
      && (forall i: nat | LastStored(s.log, |s.log|, k, i) ::
            && i < |s.log| && s.log[i].change.Insert?
            && Lookup(s.shards[hash(k) % 4096], k) == Some(s.log[i].change.item))
      && (forall j: nat | j < 4096 && k in s.shards[j] :: j == hash(k) % 4096)
  {
    RunInv(hash, steps);
    hide Exec, OneMap, PendingOk, TokensOk, LastStored, AsOneMap;
    var s := Exec(hash, steps).value;
    assert s.log[..|s.log|] == s.log;
    HeldIsLastStored(s.log, |s.log|, k);
    assert Lookup(s.shards[Home(hash, k)], k) == Lookup(OneMap(s.log), k);
    forall i: nat | LastStored(s.log, |s.log|, k, i)
      ensures i < |s.log| && s.log[i].change.Insert?
    {
      EntryOfLast(s.log, |s.log|, k, i);
    }
  }

  /** Taking the lock: the request waits inside, nothing is stored yet, and a token is drawn just if it will be. */
  lemma EnterExact(hash: Key -> nat, s: Server, op: Op)
    requires Enabled(hash, s, Enter(op))
    ensures var t, j := Next(hash, s, Enter(op)), hash(KeyOf(op)) % 4096;
      && t.shards == s.shards && t.log == s.log && t.busy.Keys == s.busy.Keys + {j} && t.busy[j].op == op
      && (forall o | o in s.busy && o != j :: t.busy[o] == s.busy[o])
      && t.cas == s.cas + (if t.busy[j].change.Insert? then 1 else 0)
      && (t.busy[j].change.Insert? ==> t.busy[j].token == t.cas)
  {
    hide Effect;
    var cur := Lookup(s.shards[Home(hash, KeyOf(op))], KeyOf(op));
    InsertDraws(cur, op, s.cas);
    InsertDraws(cur, op, s.cas + 1);
  }

  /** Letting go: the request is carried out once, in its own shard, and recorded. */
  lemma FinishExact(hash: Key -> nat, s: Server, j: nat)
    requires Enabled(hash, s, Finish(j))
    ensures var t, p := Next(hash, s, Finish(j)), s.busy[j];
      && t.log == s.log + [Commit(p.op, p.token, p.change, p.result)] && t.cas == s.cas
      && t.busy.Keys == s.busy.Keys - {j} && (forall o | o in t.busy :: t.busy[o] == s.busy[o])
      && |t.shards| == |s.shards| && (forall o: nat | o < |s.shards| && o != j :: t.shards[o] == s.shards[o])
  {
  }
}
