/**
  The memcached store as a protocol: 4096 locked shards and one shared token
  counter. examples/memcached/server/MemcacheServer.cc. A request takes its
  shard's lock and decides what to do (Enter), then changes the shard and lets
  go (Finish); requests on other shards run in between.
*/
module Memcache {
  import opened Options

  type Key = string

  /** A value has room for the line end that the client sends with it; Item asserts no more. */
  type Value = v: string | |v| >= 2 witness "\r\n"

  /** Item.h:105-110. */
  predicate EndsWithCRLF(v: string) {
    |v| >= 2 && v[|v| - 2] == '\r' && v[|v| - 1] == '\n'
  }

  datatype Entry = Entry(key: Key, flags: nat, exptime: int, value: Value, cas: nat)

  datatype Policy = Set | Add | Replace | Append | Prepend | Cas

  datatype Op = Put(item: Entry, policy: Policy) | Delete(key: Key) | Get(key: Key)

  datatype Change = Keep | Insert(item: Entry) | Erase

  datatype Result = Stored(ok: bool, present: bool) | Deleted(ok: bool) | Found(item: Option<Entry>)

  function KeyOf(op: Op): Key {
    if op.Put? then op.item.key else op.key
  }

  function Lookup(m: map<Key, Entry>, k: Key): Option<Entry> {
    if k in m then Some(m[k]) else None
  }

  // ---------------------------------------------------------------- what one request does

  /** Whether storeItem goes through. */
  predicate Accepts(cur: Option<Entry>, item: Entry, policy: Policy) {
    match policy
    case Set => true
    case Add => cur.None?
    case Replace => cur.Some?
    case Append => cur.Some?
    case Prepend => cur.Some?
    case Cas => cur.Some? && cur.value.cas == item.cas
  }

  /** The entry stored under a fresh token. */
  function Combined(cur: Option<Entry>, item: Entry, policy: Policy, token: nat): (r: Entry)
    requires Accepts(cur, item, policy)
    ensures r.key == item.key && r.cas == token
  {
    match policy
    case Append =>
      var was := cur.value;
      was.(key := item.key, value := was.value[..|was.value| - 2] + item.value, cas := token)
    case Prepend =>
      var was := cur.value;
      was.(key := item.key, value := item.value[..|item.value| - 2] + was.value, cas := token)
    case _ => item.(cas := token)
  }

  /** The entry e holds what the policy makes of the item and of the entry stored before. */
  predicate Joins(e: Entry, item: Entry, policy: Policy, was: Entry) {
    match policy
    case Append =>
      e.value == was.value[..|was.value| - 2] + item.value && e.flags == was.flags && e.exptime == was.exptime
    case Prepend =>
      e.value == item.value[..|item.value| - 2] + was.value && e.flags == was.flags && e.exptime == was.exptime
    case _ => e.value == item.value && e.flags == item.flags && e.exptime == item.exptime
  }

  /** Whether the request draws a token. */
  predicate Draws(cur: Option<Entry>, op: Op) {
    op.Put? && Accepts(cur, op.item, op.policy)
  }

  function Effect(cur: Option<Entry>, op: Op, token: nat): (Change, Result) {
    match op
    case Put(item, policy) =>
      if Accepts(cur, item, policy) then (Insert(Combined(cur, item, policy, token)), Stored(true, cur.Some?))
      else (Keep, Stored(false, cur.Some?))
    case Delete(_) => (if cur.Some? then Erase else Keep, Deleted(cur.Some?))
    case Get(_) => (Keep, Found(cur))
  }

  function Apply(m: map<Key, Entry>, k: Key, c: Change): map<Key, Entry> {
    match c
    case Keep => m
    case Insert(item) => m[k := item]
    case Erase => m - {k}
  }

  // ---------------------------------------------------------------- one map, requests one at a time

  /** A request that has been carried out. */
  datatype Commit = Commit(op: Op, token: nat, change: Change, result: Result)

  /** The single map that the carried-out requests would leave, in their order. */
  function OneMap(log: seq<Commit>): map<Key, Entry> {
    if log == [] then map[] else
      var c := log[|log| - 1];
      var m := OneMap(log[..|log| - 1]);
      Apply(m, KeyOf(c.op), Effect(Lookup(m, KeyOf(c.op)), c.op, c.token).0)
  }

  /** The n-th request did and answered what the single map says. */
  ghost predicate AsOneMap(log: seq<Commit>, n: nat)
    requires n < |log|
  {
    (log[n].change, log[n].result) == Effect(Lookup(OneMap(log[..n]), KeyOf(log[n].op)), log[n].op, log[n].token)
  }

  // ---------------------------------------------------------------- the shards

  const SHARDS: nat := 4096

  /** A request inside its lock, with what it has decided. */
  datatype Pending = Pending(op: Op, token: nat, change: Change, result: Result)

  datatype Server = Server(
    shards: seq<map<Key, Entry>>, cas: nat, busy: map<nat, Pending>, log: seq<Commit>)

  datatype Step = Enter(op: Op) | Finish(shard: nat)

  function Home(hash: Key -> nat, k: Key): nat {
    hash(k) % SHARDS
  }

  function Fresh(): Server {
    Server(seq(SHARDS, _ => map[]), 0, map[], [])
  }

  predicate Enabled(hash: Key -> nat, s: Server, step: Step) {
    |s.shards| == SHARDS &&
    match step
    case Enter(op) => Home(hash, KeyOf(op)) !in s.busy
    case Finish(j) => j < SHARDS && j in s.busy
  }

  function EnterStep(hash: Key -> nat, s: Server, op: Op): Server
    requires |s.shards| == SHARDS
  {
    var j := Home(hash, KeyOf(op));
    var cur := Lookup(s.shards[j], KeyOf(op));
    var cas := if Draws(cur, op) then s.cas + 1 else s.cas;
    var (change, result) := Effect(cur, op, cas);
    s.(cas := cas, busy := s.busy[j := Pending(op, cas, change, result)])
  }

  function FinishStep(s: Server, j: nat): Server
    requires |s.shards| == SHARDS && j < SHARDS && j in s.busy
  {
    var p := s.busy[j];
    s.(shards := s.shards[j := Apply(s.shards[j], KeyOf(p.op), p.change)],
       busy := s.busy - {j},
       log := s.log + [Commit(p.op, p.token, p.change, p.result)])
  }

  function Next(hash: Key -> nat, s: Server, step: Step): Server
    requires Enabled(hash, s, step)
  {
    match step
    case Enter(op) => EnterStep(hash, s, op)
    case Finish(j) => FinishStep(s, j)
  }

  // ---------------------------------------------------------------- the invariant

  /** Each shard holds only its own keys, and together they hold what the single map holds. */
  ghost predicate Refines(hash: Key -> nat, shards: seq<map<Key, Entry>>, m: map<Key, Entry>) {
    && |shards| == SHARDS
    && (forall k: Key :: Lookup(shards[Home(hash, k)], k) == Lookup(m, k))
    && (forall j: nat, k: Key | j < SHARDS && k in shards[j] :: Home(hash, k) == j)
  }

  /** The tokens handed out with stored entries are below the counter, all different, growing in each shard. */
  ghost predicate TokensOk(hash: Key -> nat, s: Server) {
    && (forall i: nat | i < |s.log| && s.log[i].change.Insert? ::
          0 < s.log[i].token <= s.cas && s.log[i].change.item.cas == s.log[i].token)
    && (forall i: nat, j: nat | i < j < |s.log| && s.log[i].change.Insert? && s.log[j].change.Insert? ::
          && s.log[i].token != s.log[j].token
          && (Home(hash, KeyOf(s.log[i].op)) == Home(hash, KeyOf(s.log[j].op)) ==> s.log[i].token < s.log[j].token))
  }

  /** A token drawn inside the lock of shard j is newer than any stored there and nobody else's. */
  ghost predicate TokenMine(hash: Key -> nat, s: Server, j: nat, token: nat) {
    && 0 < token <= s.cas
    && (forall i: nat | i < |s.log| && s.log[i].change.Insert? ::
          s.log[i].token != token && (Home(hash, KeyOf(s.log[i].op)) == j ==> s.log[i].token < token))
    && (forall o: nat | o in s.busy && o != j && s.busy[o].change.Insert? :: s.busy[o].token != token)
  }

  /** A request inside its lock sees the shard it decided on, and its token is its own. */
  ghost predicate PendingOk(hash: Key -> nat, s: Server, j: nat)
    requires |s.shards| == SHARDS && j in s.busy
  {
    && j == Home(hash, KeyOf(s.busy[j].op))
    && (s.busy[j].change, s.busy[j].result)
         == Effect(Lookup(s.shards[j], KeyOf(s.busy[j].op)), s.busy[j].op, s.busy[j].token)
    && (s.busy[j].change.Insert? ==> TokenMine(hash, s, j, s.busy[j].token))
  }

  ghost predicate Inv(hash: Key -> nat, s: Server) {
    && Refines(hash, s.shards, OneMap(s.log))
    && (forall n: nat | n < |s.log| :: AsOneMap(s.log, n))
    && TokensOk(hash, s)
    && (forall j: nat | j in s.busy :: PendingOk(hash, s, j))
  }

  lemma FreshInv(hash: Key -> nat)
    ensures Inv(hash, Fresh())
  {
  }

  lemma EnterInv(hash: Key -> nat, s: Server, op: Op)
    requires Inv(hash, s) && Enabled(hash, s, Enter(op))
    ensures Inv(hash, EnterStep(hash, s, op))
  {
    hide OneMap, Refines, Effect, Home, AsOneMap, Lookup;
    ShardCount(hash, s);
    var t, j := EnterStep(hash, s, op), Home(hash, KeyOf(op));
    var cur := Lookup(s.shards[j], KeyOf(op));
    InsertDraws(cur, op, t.busy[j].token);
    forall o: nat | o in t.busy
      ensures PendingOk(hash, t, o)
    {
      if o != j {
        assert PendingOk(hash, s, o);
      } else {
        forall i: nat | i in s.busy && s.busy[i].change.Insert?
          ensures s.busy[i].token <= s.cas
        {
          assert PendingOk(hash, s, i);
        }
      }
    }
  }

  lemma ShardCount(hash: Key -> nat, s: Server)
    requires Inv(hash, s)
    ensures |s.shards| == SHARDS && forall k: Key :: Home(hash, k) < SHARDS
  {
  }

  lemma InsertDraws(cur: Option<Entry>, op: Op, token: nat)
    ensures Effect(cur, op, token).0.Insert? <==> Draws(cur, op)
    ensures Draws(cur, op) ==> Effect(cur, op, token).0.item.cas == token
  {
  }

  /** Changing one key of its own shard keeps the shards together the same as the single map. */
  lemma ApplyRefines(hash: Key -> nat, shards: seq<map<Key, Entry>>, m: map<Key, Entry>, k: Key, c: Change)
    requires Refines(hash, shards, m)
    ensures var j := Home(hash, k);
      Refines(hash, shards[j := Apply(shards[j], k, c)], Apply(m, k, c))
  {
    var j := Home(hash, k);
    var after, m' := shards[j := Apply(shards[j], k, c)], Apply(m, k, c);
    hide Home;
    forall o: Key
      ensures Lookup(after[Home(hash, o)], o) == Lookup(m', o)
    {
      assert Lookup(shards[Home(hash, o)], o) == Lookup(m, o);
    }
  }

  lemma FinishInv(hash: Key -> nat, s: Server, j: nat)
    requires Inv(hash, s) && j in s.busy
    ensures j < SHARDS && |s.shards| == SHARDS && Inv(hash, FinishStep(s, j))
  {
    hide OneMap, Effect, Home, Apply, AsOneMap, Lookup, Refines;
    ShardCount(hash, s);
    assert PendingOk(hash, s, j);
    var t, p := FinishStep(s, j), s.busy[j];
    CommitRefines(hash, s, j);
    CommitTokens(hash, s, j);
    forall o: nat | o in t.busy
      ensures PendingOk(hash, t, o)
    {
      StillPending(hash, s, j, o);
    }
  }

  lemma CommitRefines(hash: Key -> nat, s: Server, j: nat)
    requires Inv(hash, s) && j in s.busy && |s.shards| == SHARDS && j < SHARDS
    ensures var t := FinishStep(s, j);
      Refines(hash, t.shards, OneMap(t.log)) && forall n: nat | n < |t.log| :: AsOneMap(t.log, n)
  {
    hide Effect, Home, Apply, TokensOk;
    assert PendingOk(hash, s, j);
    var t, p := FinishStep(s, j), s.busy[j];
    var k := KeyOf(p.op);
    assert Lookup(s.shards[Home(hash, k)], k) == Lookup(OneMap(s.log), k);
    assert t.log[..|s.log|] == s.log;
    ApplyRefines(hash, s.shards, OneMap(s.log), k, p.change);
    forall n: nat | n < |t.log|
      ensures AsOneMap(t.log, n)
    {
      assert t.log[..n] == s.log[..n];
      assert n < |s.log| ==> AsOneMap(s.log, n);
    }
  }

  lemma CommitTokens(hash: Key -> nat, s: Server, j: nat)
    requires Inv(hash, s) && j in s.busy && |s.shards| == SHARDS && j < SHARDS
    ensures TokensOk(hash, FinishStep(s, j))
  {
    hide OneMap, Effect, Home, Apply, AsOneMap, Lookup, Refines;
    assert PendingOk(hash, s, j);
    var p := s.busy[j];
    InsertDraws(Lookup(s.shards[j], KeyOf(p.op)), p.op, p.token);
  }

  lemma StillPending(hash: Key -> nat, s: Server, j: nat, o: nat)
    requires Inv(hash, s) && j in s.busy && |s.shards| == SHARDS && j < SHARDS && o in s.busy && o != j
    ensures PendingOk(hash, FinishStep(s, j), o)
  {
    hide OneMap, Effect, Home, Apply, AsOneMap, Lookup, Refines, TokensOk;
    ShardCount(hash, s);
    assert PendingOk(hash, s, j) && PendingOk(hash, s, o);
  }

  // ---------------------------------------------------------------- runs

  /** The server after these steps; None if one of them could not be taken. */
  function Exec(hash: Key -> nat, steps: seq<Step>): Option<Server> {
    if steps == [] then Some(Fresh()) else
      var n := |steps| - 1;
      match Exec(hash, steps[..n])
      case None => None
      case Some(s) => if Enabled(hash, s, steps[n]) then Some(Next(hash, s, steps[n])) else None
  }

  lemma {:induction false} RunInv(hash: Key -> nat, steps: seq<Step>)
    requires Exec(hash, steps).Some?
    ensures Inv(hash, Exec(hash, steps).value)
  {
    if steps == [] {
      FreshInv(hash);
    } else {
      var n := |steps| - 1;
      RunInv(hash, steps[..n]);
      var s := Exec(hash, steps[..n]).value;
      hide Inv, EnterStep, FinishStep;
      match steps[n]
      case Enter(op) => EnterInv(hash, s, op);
      case Finish(j) => FinishInv(hash, s, j);
    }
  }

  /**
    However the requests interleave, each answers as if all had gone one at a time,
    in the order they finished, to a single map, and that map is what the shards hold.
  */
  lemma OneMapForAll(hash: Key -> nat, steps: seq<Step>, n: nat, k: Key)
    requires Exec(hash, steps).Some?
    ensures var s := Exec(hash, steps).value;
      && |s.shards| == SHARDS && Lookup(s.shards[Home(hash, k)], k) == Lookup(OneMap(s.log), k)
      && (n < |s.log| ==> AsOneMap(s.log, n))
  {
    RunInv(hash, steps);
  }

  /** Two stored entries never share a token, and a key's tokens grow. */
  lemma TokensUnique(hash: Key -> nat, steps: seq<Step>, i: nat, j: nat)
    requires Exec(hash, steps).Some?
    requires var log := Exec(hash, steps).value.log; i < j < |log| && log[i].change.Insert? && log[j].change.Insert?
    ensures var log := Exec(hash, steps).value.log;
      && log[i].change.item.cas != log[j].change.item.cas
      && (KeyOf(log[i].op) == KeyOf(log[j].op) ==> log[i].change.item.cas < log[j].change.item.cas)
  {
    hide Exec, OneMap, AsOneMap, Refines, PendingOk;
    RunInv(hash, steps);
  }

  // ---------------------------------------------------------------- compare and swap

  /** The i-th request stored an entry under k, and none of those before n changed k since. */
  predicate LastStored(log: seq<Commit>, n: nat, k: Key, i: nat) {
    && i < n <= |log| && KeyOf(log[i].op) == k && log[i].change.Insert?
    && forall j: nat | i < j < n && KeyOf(log[j].op) == k :: log[j].change.Keep?
  }

  /** What the single map holds under k is what was last stored there. */
  lemma {:induction false} HeldIsLastStored(log: seq<Commit>, n: nat, k: Key)
    requires n <= |log| && forall m: nat | m < |log| :: AsOneMap(log, m)
    ensures k in OneMap(log[..n]) <==> exists i: nat :: LastStored(log, n, k, i)
    ensures forall i: nat | LastStored(log, n, k, i) :: Lookup(OneMap(log[..n]), k) == Some(log[i].change.item)
  {
    hide Effect;
    if n > 0 {
      var m: nat := n - 1;
      var c := log[m];
      HeldIsLastStored(log, m, k);
      assert log[..n][..m] == log[..m] && log[..n][m] == c;
      assert AsOneMap(log, m);
      if KeyOf(c.op) == k && c.change.Insert? {
        assert LastStored(log, n, k, m);
        assert forall i: nat | LastStored(log, n, k, i) :: i == m;
      } else if KeyOf(c.op) != k || c.change.Keep? {
        assert Lookup(OneMap(log[..n]), k) == Lookup(OneMap(log[..m]), k);
        forall i: nat
          ensures LastStored(log, n, k, i) <==> LastStored(log, m, k, i)
        {
        }
      } else {
        assert log[m].change.Erase? && KeyOf(log[m].op) == k;
        assert forall i: nat :: !LastStored(log, n, k, i);
        assert OneMap(log[..n]) == Apply(OneMap(log[..n - 1]), k, Erase);
      }
    }
  }

  /**
    A cas request succeeds exactly when the entry that was given the quoted token
    was stored under this key and has been neither replaced nor deleted since,
    whatever was deleted and added again in between.
  */
  lemma CasExact(hash: Key -> nat, steps: seq<Step>, n: nat)
    requires Exec(hash, steps).Some?
    requires var log := Exec(hash, steps).value.log; n < |log| && log[n].op.Put? && log[n].op.policy.Cas?
    ensures var log := Exec(hash, steps).value.log;
      log[n].result == Stored(
        exists i: nat :: LastStored(log, n, KeyOf(log[n].op), i) && log[i].change.item.cas == log[n].op.item.cas,
        exists i: nat :: LastStored(log, n, KeyOf(log[n].op), i))
  {
    hide Exec, OneMap, PendingOk, Refines, TokensOk;
    RunInv(hash, steps);
    var log := Exec(hash, steps).value.log;
    HeldIsLastStored(log, n, KeyOf(log[n].op));
    assert AsOneMap(log, n);
  }

  /** So once the i-th stored entry is gone from its key, its token never works again. */
  lemma OldTokenNeverWorks(hash: Key -> nat, steps: seq<Step>, i: nat, n: nat)
    requires Exec(hash, steps).Some?
    requires var log := Exec(hash, steps).value.log;
      && i < n < |log| && log[i].change.Insert? && log[n].op.Put? && log[n].op.policy.Cas?
      && log[n].op.item.cas == log[i].change.item.cas
    ensures var log := Exec(hash, steps).value.log;
      log[n].change.Insert? <==> LastStored(log, n, KeyOf(log[n].op), i)
  {
    hide Exec, OneMap, PendingOk, Refines, LastStored, Home;
    CasExact(hash, steps, n);
    RunInv(hash, steps);
    var log, k := Exec(hash, steps).value.log, KeyOf(Exec(hash, steps).value.log[n].op);
    assert AsOneMap(log, n);
    forall m: nat | LastStored(log, n, k, m)
      ensures m < n && log[m].change.Insert? && (log[m].change.item.cas == log[n].op.item.cas ==> m == i)
    {
      Inserted(log, n, k, m);
    }
  }

  lemma Inserted(log: seq<Commit>, n: nat, k: Key, i: nat)
    requires LastStored(log, n, k, i)
    ensures i < n <= |log| && log[i].change.Insert?
  {
  }

  // ---------------------------------------------------------------- line ends

  predicate ChangeEnds(c: Change) {
    c.Insert? ==> EndsWithCRLF(c.item.value)
  }

  predicate OpEnds(op: Op) {
    op.Put? ==> EndsWithCRLF(op.item.value)
  }

  predicate MapEnds(m: map<Key, Entry>) {
    forall k | k in m :: EndsWithCRLF(m[k].value)
  }

  /** Every value stored, about to be stored, or ever stored ends with CR LF. */
  ghost predicate AllEnd(s: Server) {
    && (forall j | 0 <= j < |s.shards| :: MapEnds(s.shards[j]))
    && (forall j: nat | j in s.busy :: ChangeEnds(s.busy[j].change))
    && (forall n | 0 <= n < |s.log| :: ChangeEnds(s.log[n].change))
  }

  /** Joining two values keeps the line end, so the assertion of append and prepend holds. */
  lemma EffectEnds(m: map<Key, Entry>, op: Op, token: nat)
    requires MapEnds(m) && OpEnds(op)
    ensures ChangeEnds(Effect(Lookup(m, KeyOf(op)), op, token).0)
  {
    var cur := Lookup(m, KeyOf(op));
    assert cur.Some? ==> EndsWithCRLF(cur.value.value);
  }

  lemma NextEnds(hash: Key -> nat, s: Server, step: Step)
    requires Enabled(hash, s, step) && AllEnd(s) && (step.Enter? ==> OpEnds(step.op))
    ensures AllEnd(Next(hash, s, step))
  {
    hide EndsWithCRLF, Home;
    match step
    case Enter(op) =>
      HomeInRange(hash, KeyOf(op));
      var m := s.shards[Home(hash, KeyOf(op))];
      EffectEnds(m, op, if Draws(Lookup(m, KeyOf(op)), op) then s.cas + 1 else s.cas);
      hide Effect, MapEnds;
    case Finish(j) =>
      assert ChangeEnds(s.busy[j].change) && MapEnds(s.shards[j]);
      assert MapEnds(Apply(s.shards[j], KeyOf(s.busy[j].op), s.busy[j].change));
  }

  lemma HomeInRange(hash: Key -> nat, k: Key)
    ensures Home(hash, k) < SHARDS
  {
  }

  /** When every value sent ends with CR LF, so does every value ever stored. */
  lemma {:induction false} LineEndsKept(hash: Key -> nat, steps: seq<Step>)
    requires Exec(hash, steps).Some? && forall i | 0 <= i < |steps| && steps[i].Enter? :: OpEnds(steps[i].op)
    ensures AllEnd(Exec(hash, steps).value)
  {
    if steps != [] {
      var n := |steps| - 1;
      LineEndsKept(hash, steps[..n]);
      NextEnds(hash, Exec(hash, steps[..n]).value, steps[n]);
    }
  }
}
