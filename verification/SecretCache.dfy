/**
  The secret cache of cmd/halite-ext-aws-secrets/cache.go: values kept for a
  time to live, bounded in entries and in bytes, the least recently used going
  first.

  The list is a sequence, most recently used first; an element of the map is
  the entry it points to.
*/
module SecretCache {
  import opened Basics

  type Time = int

  datatype Entry = Entry(key: string, value: string, at: Time, size: nat)

  type Order = seq<Entry>

  datatype Bounds = Bounds(maxEntries: nat, maxBytes: int)

  function Bytes(order: Order): nat {
    if order == [] then 0 else order[0].size + Bytes(order[1..])
  }

  /** The list without a key, which it holds at most once. */
  function Without(order: Order, key: string): Order {
    if order == [] then []
    else (if order[0].key == key then [] else [order[0]]) + Without(order[1..], key)
  }

  function Find(order: Order, key: string): Option<Entry> {
    if order == [] then None
    else if order[0].key == key then Some(order[0])
    else Find(order[1..], key)
  }

  predicate Fits(b: Bounds, order: Order) {
    |order| <= b.maxEntries && Bytes(order) <= b.maxBytes
  }

  function Trimmed(b: Bounds, order: Order): Order {
    if order == [] || Fits(b, order) then order else Trimmed(b, order[..|order| - 1])
  }

  function AfterPut(b: Bounds, order: Order, e: Entry): Order {
    var rest := Without(order, e.key);
    if e.size > b.maxBytes then rest else Trimmed(b, [e] + rest)
  }

  /** A lookup answers, and marks used, an entry younger than the ttl; an older one goes. */
  function AfterGet(order: Order, key: string, ttl: int, now: Time): (Order, Option<string>) {
    var e := Find(order, key);
    if e.None? then (order, None)
    else if now - e.value.at >= ttl then (Without(order, key), None)
    else ([e.value] + Without(order, key), Some(e.value.value))
  }

  /** No key is held twice. */
  predicate Distinct(order: Order) {
    order == [] || (Find(order[1..], order[0].key).None? && Distinct(order[1..]))
  }

  function Lookup(entries: map<string, Entry>, key: string): Option<Entry> {
    if key in entries then Some(entries[key]) else None
  }

  // ---- The cache ---------------------------------------------------------------

  class Cache {
    const bounds: Bounds
    var entries: map<string, Entry>
    var order: Order
    var bytes: int

    /** Map and list are in bijection and `bytes` is what they hold. */
    ghost predicate Valid()
      reads this
    {
      && Distinct(order)
      && (forall k :: Lookup(entries, k) == Find(order, k))
      && bytes == Bytes(order)
    }

    constructor (bounds: Bounds)
      ensures Valid() && this.bounds == bounds && order == []
    {
      this.bounds := bounds;
      entries, order, bytes := map[], [], 0;
    }

    method Remove(e: Entry)
      requires Valid() && Find(order, e.key) == Some(e)
      modifies `entries, `order, `bytes
      ensures Valid() && order == Without(old(order), e.key)
      ensures |order| == |old(order)| - 1
    {
      WithoutDropsOne(order, e.key);
      forall k ensures Find(Without(order, e.key), k) == if k == e.key then None else Find(order, k) {
        FindWithout(order, e.key, k);
      }
      order := Without(order, e.key);
      entries := entries - {e.key};
      bytes := bytes - e.size;
    }

    method Get(key: string, ttl: int, now: Time) returns (hit: Option<string>)
      requires Valid()
      modifies `entries, `order, `bytes
      ensures Valid() && (order, hit) == AfterGet(old(order), key, ttl, now)
    {
      assert Lookup(entries, key) == Find(order, key);
      FoundHasKey(order, key);
      if key !in entries {
        return None;
      }
      var e := entries[key];
      if now - e.at >= ttl {
        Remove(e);
        return None;
      }
      WithoutDropsOne(order, key);
      forall k ensures Find(Without(order, key), k) == if k == key then None else Find(order, k) {
        FindWithout(order, key, k);
      }
      order := PushedFront(e, Without(order, key));
      hit := Some(e.value);
    }

    method Put(key: string, value: string, size: nat, now: Time)
      requires Valid()
      modifies `entries, `order, `bytes
      ensures Valid() && order == AfterPut(bounds, old(order), Entry(key, value, now, size))
    {
      assert Lookup(entries, key) == Find(order, key);
      FoundHasKey(order, key);
      if key in entries {
        Remove(entries[key]);
      } else {
        WithoutAbsent(order, key);
      }
      FindWithout(old(order), key, key);
      if size > bounds.maxBytes {
        return;
      }
      var e := Entry(key, value, now, size);
      entries := entries[key := e];
      order := PushedFront(e, order);
      bytes := bytes + size;
      Evict();
    }

    method Evict()
      requires Valid() && bounds.maxBytes >= 0
      modifies `entries, `order, `bytes
      ensures Valid() && order == Trimmed(bounds, old(order))
    {
      while |order| > bounds.maxEntries || bytes > bounds.maxBytes
        invariant Valid() && Trimmed(bounds, order) == Trimmed(bounds, old(order))
        decreases |order|
      {
        WithoutLast(order);
        Remove(order[|order| - 1]);
      }
    }

    /** One secret, through the cache: `remote` is what Secrets Manager would answer, and
        the clock is read once for the lookup and again for the store. */
    method Fetch(key: string, ttl: int, now: Time, later: Time, remote: Option<(string, nat)>) returns (value: Option<string>)
      requires Valid()
      modifies `entries, `order, `bytes
      ensures Valid()
      ensures ttl <= 0 ==> order == old(order) && value == if remote.Some? then Some(remote.value.0) else None
      ensures ttl > 0 ==>
                var (looked, hit) := AfterGet(old(order), key, ttl, now);
                if hit.Some? then value == hit && order == looked
                else if remote.None? then value == None && order == looked
                else && value == Some(remote.value.0)
                     && order == AfterPut(bounds, looked, Entry(key, remote.value.0, later, remote.value.1))
    {
      if ttl > 0 {
        value := Get(key, ttl, now);
        if value.Some? {
          return;
        }
      }
      if remote.None? {
        return None;
      }
      if ttl > 0 {
        Put(key, remote.value.0, remote.value.1, later);
      }
      value := Some(remote.value.0);
    }
  }

  // ---- About the list ------------------------------------------------------------

  function PushedFront(e: Entry, order: Order): (r: Order)
    ensures r == [e] + order && r[1..] == order
    ensures Bytes(r) == e.size + Bytes(order)
    ensures Distinct(r) <==> Find(order, e.key).None? && Distinct(order)
    ensures forall k :: Find(r, k) == if k == e.key then Some(e) else Find(order, k)
  {
    assert ([e] + order)[1..] == order;
    [e] + order
  }

  lemma {:induction false} FoundHasKey(order: Order, key: string)
    ensures Find(order, key).Some? ==> Find(order, key).value.key == key
  {
    if order != [] {
      FoundHasKey(order[1..], key);
    }
  }

  lemma {:induction false} FindWithout(order: Order, key: string, k: string)
    ensures Find(Without(order, key), k) == if k == key then None else Find(order, k)
  {
    if order != [] {
      FindWithout(order[1..], key, k);
      if order[0].key != key {
        assert Without(order, key)[1..] == Without(order[1..], key);
      } else {
        assert Without(order, key) == Without(order[1..], key);
      }
    }
  }

  lemma {:induction false} WithoutAbsent(order: Order, key: string)
    requires Find(order, key).None?
    ensures Without(order, key) == order
  {
    if order != [] {
      WithoutAbsent(order[1..], key);
    }
  }

  lemma {:induction false} WithoutDropsOne(order: Order, key: string)
    requires Distinct(order)
    ensures Distinct(Without(order, key))
    ensures Find(order, key).Some? ==>
              && |Without(order, key)| == |order| - 1
              && Bytes(Without(order, key)) == Bytes(order) - Find(order, key).value.size
  {
    if order != [] {
      var rest := order[1..];
      if order[0].key == key {
        WithoutAbsent(rest, key);
        assert Without(order, key) == rest;
      } else {
        WithoutDropsOne(rest, key);
        FindWithout(rest, key, order[0].key);
        var pushed := PushedFront(order[0], Without(rest, key));
        assert Without(order, key) == pushed;
      }
    }
  }

  lemma {:induction false} WithoutLast(order: Order)
    requires order != [] && Distinct(order)
    ensures var last := order[|order| - 1];
            Find(order, last.key) == Some(last) && Without(order, last.key) == order[..|order| - 1]
  {
    if |order| > 1 {
      var last := order[|order| - 1];
      WithoutLast(order[1..]);
      assert order[1..][|order| - 2] == last;
      assert [order[0]] + order[1..][..|order| - 2] == order[..|order| - 1];
    } else {
      assert order[1..] == [];
    }
  }

  lemma {:induction false} PrefixFinds(order: Order, n: nat, key: string)
    requires n <= |order|
    ensures Find(order[..n], key).Some? ==> Find(order, key) == Find(order[..n], key)
    ensures Distinct(order) ==> Distinct(order[..n])
  {
    if n > 0 {
      assert order[..n][1..] == order[1..][..n - 1];
      PrefixFinds(order[1..], n - 1, key);
      PrefixFinds(order[1..], n - 1, order[0].key);
    }
  }

  /** Eviction leaves exactly the longest prefix of the recency order that meets both bounds. */
  lemma {:induction false} TrimmedIsLongestPrefix(b: Bounds, order: Order)
    requires b.maxBytes >= 0
    ensures Trimmed(b, order) <= order && Fits(b, Trimmed(b, order))
    ensures forall n | |Trimmed(b, order)| < n <= |order| :: !Fits(b, order[..n])
    decreases |order|
  {
    if order != [] && !Fits(b, order) {
      var n := |order| - 1;
      TrimmedIsLongestPrefix(b, order[..n]);
      forall k | |Trimmed(b, order)| < k <= |order|
        ensures !Fits(b, order[..k])
      {
        if k == |order| {
          assert order[..k] == order;
        } else {
          assert order[..n][..k] == order[..k];
        }
      }
    }
  }

  // ---- Runs --------------------------------------------------------------------------

  datatype Op =
    | Put(entry: Entry)
    | Get(key: string, ttl: int, now: Time)

  function Step(b: Bounds, order: Order, op: Op): Order {
    match op
    case Put(e) => AfterPut(b, order, e)
    case Get(key, ttl, now) => AfterGet(order, key, ttl, now).0
  }

  function Held(b: Bounds, ops: seq<Op>): Order {
    if ops == [] then [] else Step(b, Held(b, ops[..|ops| - 1]), ops[|ops| - 1])
  }

  /** What was last put under a key, whether or not it is still held. */
  function LatestPut(ops: seq<Op>, key: string): Option<Entry> {
    if ops == [] then None
    else
      var last := ops[|ops| - 1];
      if last.Put? && last.entry.key == key then Some(last.entry) else LatestPut(ops[..|ops| - 1], key)
  }

  ghost predicate Current(ops: seq<Op>, order: Order) {
    forall k | Find(order, k).Some? :: LatestPut(ops, k) == Find(order, k)
  }

  lemma {:induction false} HeldIsCurrent(b: Bounds, ops: seq<Op>)
    requires b.maxBytes >= 0
    ensures Current(ops, Held(b, ops)) && Distinct(Held(b, ops))
  {
    if ops != [] {
      var was, op := ops[..|ops| - 1], ops[|ops| - 1];
      HeldIsCurrent(b, was);
      StepIsCurrent(b, was, Held(b, was), op);
      assert was + [op] == ops;
    }
  }

  lemma {:induction false} StepIsCurrent(b: Bounds, ops: seq<Op>, order: Order, op: Op)
    requires b.maxBytes >= 0 && Current(ops, order) && Distinct(order)
    ensures Current(ops + [op], Step(b, order, op)) && Distinct(Step(b, order, op))
  {
    var key := if op.Put? then op.entry.key else op.key;
    var rest := Without(order, key);
    WithoutDropsOne(order, key);
    forall k ensures Find(rest, k) == if k == key then None else Find(order, k) {
      FindWithout(order, key, k);
    }
    assert (ops + [op])[..|ops|] == ops;
    FoundHasKey(order, key);
    if op.Put? {
      var all := PushedFront(op.entry, rest);
      TrimmedIsLongestPrefix(b, all);
      var n := |Trimmed(b, all)|;
      assert Trimmed(b, all) == all[..n];
      forall k ensures Find(all[..n], k).Some? ==> Find(all, k) == Find(all[..n], k) {
        PrefixFinds(all, n, k);
      }
      PrefixFinds(all, n, key);
    } else if Find(order, key).Some? {
      var all := PushedFront(Find(order, key).value, rest);
    }
  }

  /** A hit is never a value that has been replaced, and never one as old as the ttl. */
  lemma {:induction false} HitIsTheLatestPut(b: Bounds, ops: seq<Op>, key: string, ttl: int, now: Time)
    requires b.maxBytes >= 0 && AfterGet(Held(b, ops), key, ttl, now).1.Some?
    ensures var latest := LatestPut(ops, key);
            && latest.Some? && latest.value.key == key
            && AfterGet(Held(b, ops), key, ttl, now).1 == Some(latest.value.value)
            && now - latest.value.at < ttl
  {
    HeldIsCurrent(b, ops);
    FoundHasKey(Held(b, ops), key);
  }

  /** Every value there has been, the one last put or hit first. What was evicted keeps
      its place until it is put again. */
  function Recency(b: Bounds, ops: seq<Op>): Order {
    if ops == [] then []
    else
      var was, op := ops[..|ops| - 1], ops[|ops| - 1];
      var order, all := Held(b, was), Recency(b, was);
      match op
      case Put(e) => (if e.size > b.maxBytes then [] else [e]) + Without(all, e.key)
      case Get(key, ttl, now) =>
        var found := Find(order, key);
        if found.None? then all
        else (if now - found.value.at >= ttl then [] else [found.value]) + Without(all, key)
  }

  lemma {:induction false} WithoutPrefix(a: Order, b: Order, key: string)
    requires a <= b
    ensures Without(a, key) <= Without(b, key)
  {
    if a != [] {
      assert a[1..] <= b[1..];
      WithoutPrefix(a[1..], b[1..], key);
    }
  }

  /** Least recently used, over whole runs: what is held is always the values last put
      or hit, with no gap. */
  lemma {:induction false} HeldIsMostRecent(b: Bounds, ops: seq<Op>)
    requires b.maxBytes >= 0
    ensures Held(b, ops) <= Recency(b, ops)
  {
    if ops != [] {
      var was, op := ops[..|ops| - 1], ops[|ops| - 1];
      HeldIsMostRecent(b, was);
      var order, all := Held(b, was), Recency(b, was);
      var key := if op.Put? then op.entry.key else op.key;
      WithoutPrefix(order, all, key);
      var rest, allRest := Without(order, key), Without(all, key);
      if op.Put? {
        TrimmedIsLongestPrefix(b, [op.entry] + rest);
        assert [op.entry] + rest <= [op.entry] + allRest;
        assert [] + allRest == allRest;
      } else if Find(order, key).Some? {
        assert [Find(order, key).value] + rest <= [Find(order, key).value] + allRest;
        assert [] + allRest == allRest;
      }
    }
  }

  // ---- One lookup, one store ------------------------------------------------------------

  lemma {:induction false} FindIs(order: Order, i: nat)
    requires Distinct(order) && i < |order|
    ensures Find(order, order[i].key) == Some(order[i])
    ensures Without(order, order[i].key) == order[..i] + order[i + 1..]
  {
    if i == 0 {
      WithoutAbsent(order[1..], order[0].key);
      assert order[..0] + order[1..] == order[1..];
    } else {
      FindIs(order[1..], i - 1);
      assert order[1..][i - 1] == order[i];
      assert order[..i] + order[i + 1..] == [order[0]] + (order[1..][..i - 1] + order[1..][i..]);
    }
  }

  lemma {:induction false} NotFound(order: Order, key: string)
    requires forall e | e in order :: e.key != key
    ensures Find(order, key) == None
  {
    if order != [] {
      NotFound(order[1..], key);
    }
  }

  /** What a lookup answers and leaves, by what is held: a value younger than the ttl is
      answered and goes to the front, one as old goes, and nothing else moves. */
  lemma {:induction false} LookupIs(order: Order, key: string, ttl: int, now: Time)
    requires Distinct(order)
    ensures (forall e | e in order :: e.key != key) ==> AfterGet(order, key, ttl, now) == (order, None)
    ensures forall i | 0 <= i < |order| && order[i].key == key ::
              AfterGet(order, key, ttl, now) ==
              if now - order[i].at < ttl then ([order[i]] + (order[..i] + order[i + 1..]), Some(order[i].value))
              else (order[..i] + order[i + 1..], None)
  {
    if forall e | e in order :: e.key != key {
      NotFound(order, key);
    }
    forall i | 0 <= i < |order| && order[i].key == key
      ensures Find(order, key) == Some(order[i]) && Without(order, key) == order[..i] + order[i + 1..]
    {
      FindIs(order, i);
    }
  }

  /** What was just stored is answered until it is as old as the ttl, unless it is larger
      than the whole cache, and then what it replaces is gone too. */
  lemma {:induction false} StoredIsServed(b: Bounds, order: Order, e: Entry, ttl: int, now: Time)
    requires b.maxEntries >= 1 && b.maxBytes >= 0
    ensures AfterGet(AfterPut(b, order, e), e.key, ttl, now).1 ==
            if e.size <= b.maxBytes && now - e.at < ttl then Some(e.value) else None
  {
    var rest := Without(order, e.key);
    FindWithout(order, e.key, e.key);
    if e.size <= b.maxBytes {
      var all := PushedFront(e, rest);
      TrimmedIsLongestPrefix(b, all);
      assert all[..1] == [e] && Bytes([e]) == e.size by { assert [e][1..] == []; }
      var kept := Trimmed(b, all);
      assert |kept| >= 1;
      assert kept[0] == all[0] == e;
    }
  }
}
