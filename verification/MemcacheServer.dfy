/**
  The store's own code: items filled piece by piece (Item.cc, Item.h) and the
  three operations on the shards (MemcacheServer.cc), each proved against
  Memcache.Effect on the single map that the shards refine.
*/
module MemcacheServer {
  import opened Memcache
  import opened Options

  class Item {
    const flags: nat
    const exptime: int
    const valuelen: nat
    const data: array<char>
    var keylen: nat
    var receivedBytes: nat
    var cas: nat

    function TotalLen(): nat
      reads this
    {
      keylen + valuelen
    }

    /** The bytes received fit into what was allocated. */
    ghost predicate Valid()
      reads this
    {
      keylen <= receivedBytes <= TotalLen() <= data.Length
    }

    ghost function Received(): string
      requires Valid()
      reads this, data
    {
      data[..receivedBytes]
    }

    function KeyText(): Key
      requires Valid()
      reads this, data
    {
      data[..keylen]
    }

    function ValueText(): string
      requires Valid()
      reads this, data
    {
      data[keylen..TotalLen()]
    }

    function NeededBytes(): nat
      requires Valid()
      reads this
    {
      TotalLen() - receivedBytes
    }

    function EndsWithCRLF(): bool
      requires Valid() && valuelen >= 2
      reads this, data
    {
      receivedBytes == TotalLen() && data[TotalLen() - 2] == '\r' && data[TotalLen() - 1] == '\n'
    }

    lemma CrlfIsValue()
      requires Valid() && valuelen >= 2 && NeededBytes() == 0
      ensures EndsWithCRLF() <==> Memcache.EndsWithCRLF(ValueText())
    {
    }

    /** What a complete item is worth to the store. */
    function Worth(): Entry
      requires Valid() && valuelen >= 2 && NeededBytes() == 0
      reads this, data
    {
      Entry(KeyText(), flags, exptime, ValueText(), cas)
    }

    constructor (key: Key, flagsArg: nat, exptimeArg: int, valuelenArg: nat, casArg: nat)
      requires valuelenArg >= 2
      ensures Valid() && fresh(data) && Received() == key && keylen == |key| && cas == casArg
      ensures flags == flagsArg && exptime == exptimeArg && valuelen == valuelenArg && data.Length == |key| + valuelen
    {
      keylen, flags, exptime, valuelen, receivedBytes, cas := |key|, flagsArg, exptimeArg, valuelenArg, 0, casArg;
      data := new char[|key| + valuelenArg];
      new;
      Fill(key);
    }

    /** The copy and the count that Append and ResetKey share. */
    method Fill(s: string)
      requires receivedBytes + |s| <= TotalLen() <= data.Length
      modifies this`receivedBytes, data
      ensures receivedBytes == old(receivedBytes) + |s|
      ensures data[..receivedBytes] == old(data[..receivedBytes]) + s
    {
      for i := 0 to |s|
        invariant receivedBytes == old(receivedBytes)
        invariant data[..receivedBytes + i] == old(data[..receivedBytes]) + s[..i]
      {
        data[receivedBytes + i] := s[i];
        assert data[..receivedBytes + i] == old(data[..receivedBytes]) + s[..i];
      }
      receivedBytes := receivedBytes + |s|;
    }

    method Append(s: string)
      requires Valid() && |s| <= NeededBytes()
      modifies this`receivedBytes, data
      ensures Valid() && Received() == old(Received()) + s && KeyText() == old(KeyText())
      ensures NeededBytes() == old(NeededBytes()) - |s|
    {
      Fill(s);
      assert KeyText() == Received()[..keylen];
      assert old(KeyText()) == old(Received())[..keylen];
    }

    /** Item.cc:56-63: the item becomes a lookup key; there must be memory for it. */
    method ResetKey(k: Key)
      requires Valid() && |k| <= 250 && |k| + valuelen <= data.Length
      modifies this`keylen, this`receivedBytes, data
      ensures Valid() && KeyText() == k && Received() == k
    {
      keylen := |k|;
      receivedBytes := 0;
      Fill(k);
    }

    method SetCas(casArg: nat)
      modifies this`cas
      ensures cas == casArg
    {
      cas := casArg;
    }
  }

  /** The item that append and prepend build from the stored entry and the new one. */
  method Joined(was: Entry, item: Entry, policy: Policy, token: nat) returns (r: Entry)
    requires policy.Append? || policy.Prepend?
    requires Memcache.EndsWithCRLF(if policy.Append? then item.value else was.value)
    ensures r == Combined(Some(was), item, policy, token)
    ensures r.key == item.key && r.cas == token && Joins(r, item, policy, was)
  {
    if policy.Append? {
      r := Built(item.key, was.flags, was.exptime, was.value, item.value, token);
    } else {
      r := Built(item.key, was.flags, was.exptime, item.value, was.value, token);
    }
  }

  /** A new item filled with one value less its line end, and another. */
  method Built(key: Key, flags: nat, exptime: int, first: Value, second: Value, token: nat) returns (r: Entry)
    requires Memcache.EndsWithCRLF(second)
    ensures r == Entry(key, flags, exptime, first[..|first| - 2] + second, token)
  {
    var head := first[..|first| - 2];
    var newItem := new Item(key, flags, exptime, |head| + |second|, token);
    newItem.Append(head);
    newItem.Append(second);
    assert newItem.Received() == key + head + second;
    assert newItem.NeededBytes() == 0;
    assert newItem.ValueText() == newItem.Received()[|key|..] == head + second;
    newItem.CrlfIsValue();
    assert newItem.EndsWithCRLF();
    r := newItem.Worth();
  }

  class MemcacheServer {
    const hash: Key -> nat
    const shards: array<map<Key, Entry>>
    var gCas: nat
    /** The single map the shards stand for. */
    ghost var items: map<Key, Entry>

    ghost predicate Valid()
      reads this, shards
    {
      Refines(hash, shards[..], items)
    }

    constructor (h: Key -> nat)
      ensures Valid() && fresh(shards) && hash == h && items == map[] && gCas == 0
    {
      hash := h;
      shards := new map<Key, Entry>[SHARDS](_ => map[]);
      gCas, items := 0, map[];
    }

    function ShardOf(k: Key): (j: nat)
      ensures j == Home(hash, k) && j < SHARDS
    {
      Home(hash, k)
    }

    lemma Found(k: Key)
      requires Valid()
      ensures shards.Length == SHARDS && Lookup(shards[ShardOf(k)], k) == Lookup(items, k)
    {
    }

    /** Put a changed shard back. */
    method Commit(k: Key, c: Change)
      requires Valid()
      modifies this`items, shards
      ensures Valid() && items == Apply(old(items), k, c)
    {
      Found(k);
      ApplyRefines(hash, shards[..], items, k, c);
      var j := ShardOf(k);
      shards[j] := Apply(shards[j], k, c);
      items := Apply(items, k, c);
      assert shards[..] == old(shards[..])[j := shards[j]];
    }

    /** What storeItem asserts of the value that append or prepend puts last, MemcacheServer.cc:110. */
    ghost predicate JoinEnds(e: Entry, policy: Policy)
      reads this
    {
      e.key in items ==>
        && (policy.Append? ==> Memcache.EndsWithCRLF(e.value))
        && (policy.Prepend? ==> Memcache.EndsWithCRLF(items[e.key].value))
    }

    /** MemcacheServer.cc:44-138; the item must be complete. */
    method StoreItem(item: Item, policy: Policy) returns (ok: bool, present: bool)
      requires Valid() && item.Valid() && item.valuelen >= 2 && item.NeededBytes() == 0
      requires JoinEnds(item.Worth(), policy)
      modifies this`gCas, this`items, shards, item`cas
      ensures Valid()
      ensures var e := old(item.Worth());
        var cur := Lookup(old(items), e.key);
        var (change, result) := Effect(cur, Put(e, policy), gCas);
        && items == Apply(old(items), e.key, change) && Stored(ok, present) == result
        && gCas == old(gCas) + (if ok then 1 else 0)
        && item.cas == if ok && !policy.Append? && !policy.Prepend? then gCas else old(item.cas)
      ensures var e, was := old(item.Worth()), old(items);
        && present == (e.key in was)
        && ok == match policy {
             case Set => true
             case Add => !present
             case Cas => present && was[e.key].cas == e.cas
             case _ => present
           }
        && (!ok ==> items == was)
        && (ok ==> e.key in items && items == was[e.key := items[e.key]] && items[e.key].key == e.key)
        && (ok ==> items[e.key].cas == gCas && Joins(items[e.key], e, policy, if present then was[e.key] else e))
    {
      hide Refines, Home;
      var e := item.Worth();
      Found(e.key);
      var j := ShardOf(e.key);
      present := e.key in shards[j];
      if policy.Set? {
        gCas := gCas + 1;
        item.SetCas(gCas);
        Commit(e.key, Insert(e.(cas := gCas)));
      } else if policy.Add? {
        if present {
          return false, present;
        }
        gCas := gCas + 1;
        item.SetCas(gCas);
        Commit(e.key, Insert(e.(cas := gCas)));
      } else if policy.Replace? {
        if !present {
          return false, present;
        }
        gCas := gCas + 1;
        item.SetCas(gCas);
        Commit(e.key, Insert(e.(cas := gCas)));
      } else if policy.Append? || policy.Prepend? {
        if !present {
          return false, present;
        }
        gCas := gCas + 1;
        var joined := Joined(shards[j][e.key], e, policy, gCas);
        Commit(e.key, Insert(joined));
      } else {
        if !present || shards[j][e.key].cas != e.cas {
          return false, present;
        }
        gCas := gCas + 1;
        item.SetCas(gCas);
        Commit(e.key, Insert(e.(cas := gCas)));
      }
      ok := true;
    }

    method GetItem(k: Key) returns (r: Option<Entry>)
      requires Valid()
      ensures Memcache.Found(r) == Effect(Lookup(items, k), Get(k), gCas).1
      ensures r.Some? <==> k in items
      ensures k in items ==> r == Some(items[k])
    {
      Found(k);
      var j := ShardOf(k);
      r := if k in shards[j] then Some(shards[j][k]) else None;
    }

    method DeleteItem(k: Key) returns (ok: bool)
      requires Valid()
      modifies this`items, shards
      ensures Valid()
      ensures var (change, result) := Effect(Lookup(old(items), k), Delete(k), gCas);
        items == Apply(old(items), k, change) && Deleted(ok) == result
      ensures ok == (k in old(items)) && items == old(items) - {k}
    {
      Found(k);
      var j := ShardOf(k);
      ok := k in shards[j];
      if ok {
        Commit(k, Erase);
      }
    }
  }
}
