/** The cache of BDD expansions: it agrees with the uncached expansion, and evicts the vectors
    that were not used for the longest time. */
module BddCache {
  import opened SatVector

  // The cache is allowed BVC_MAX MB, and BVC_REMOVE MB are freed when it gets full.
  const BVC_MAX: nat := 128
  const BVC_REMOVE: nat := 8
  // Entries (of 4 bytes) in one MB.
  const ENTRIES_PER_MB: nat := 0x4_0000
  // Eviction begins at UPPER entries and goes on until there are fewer than LOWER.
  const UPPER: nat := BVC_MAX * ENTRIES_PER_MB
  const LOWER: nat := (BVC_MAX - BVC_REMOVE) * ENTRIES_PER_MB

  // A BDD has an ID, and the satisfying assignments that cover it (none if it is false).
  datatype Bdd = Bdd(id: nat, sats: seq<seq<int>>)

  // ---------- The uncached expansion ----------

  ghost predicate Covers(b: Bdd, n: nat, x: nat) {
    exists i: nat :: i < |b.sats| && 2 * n <= |b.sats[i]| + 1 && Matches(Pattern(b.sats[i], n), x)
  }

  // The assignments cover n bits, and no integer matches two of them.
  ghost predicate WellFormed(b: Bdd, n: nat) {
    && n <= 32 && (forall i: nat :: i < |b.sats| ==> 2 * n <= |b.sats[i]| + 1)
    && (forall i: nat, j: nat, x: nat :: i < j < |b.sats| && Matches(Pattern(b.sats[i], n), x) ==> !Matches(Pattern(b.sats[j], n), x))
  }

  ghost predicate Ascending(v: seq<nat>) {
    forall i, j :: 0 <= i < j < |v| ==> v[i] < v[j]
  }

  // v lists the members of the BDD in increasing order.
  ghost predicate IsExpansion(b: Bdd, n: nat, v: seq<nat>) {
    Ascending(v) && forall x: nat :: x in v <==> Covers(b, n, x)
  }

  // There is only one such vector.
  lemma {:induction false} ExpansionUnique(v: seq<nat>, w: seq<nat>)
    requires Ascending(v) && Ascending(w) && forall x: nat :: x in v <==> x in w
    ensures v == w
  {
    if v != [] {
      var i, j := |v| - 1, |w| - 1;
      assert v[i] in w && w[j] in v;
      assert v[i] == w[j];
      forall x: nat ensures x in v[..i] <==> x in w[..j] {
        assert x in v[..i] ==> x in v && x < v[i];
        assert x in w[..j] ==> x in w && x < w[j];
      }
      ExpansionUnique(v[..i], w[..j]);
      assert v == v[..i] + [v[i]] && w == w[..j] + [w[j]];
    } else if w != [] {
      var x := First(w);
    }
  }

  function First(v: seq<nat>): (x: nat)
    requires v != []
    ensures x in v
  {
    v[0]
  }

  ghost predicate Distinct(v: seq<nat>) {
    forall i, j :: 0 <= i < j < |v| ==> v[i] != v[j]
  }

  // Put x in its place.
  method Insert(v: seq<nat>, x: nat) returns (r: seq<nat>)
    requires Ascending(v) && x !in v
    ensures Ascending(r) && forall y: nat :: y in r <==> y in v || y == x
  {
    var i := 0;
    while i < |v| && v[i] < x
      invariant i <= |v| && forall j :: 0 <= j < i ==> v[j] < x
    {
      i := i + 1;
    }
    assert i < |v| ==> v[i] != x;
    r := v[..i] + [x] + v[i..];
    assert v == v[..i] + v[i..];
  }

  method Sort(v: seq<nat>) returns (r: seq<nat>)
    requires Distinct(v)
    ensures Ascending(r) && forall x: nat :: x in r <==> x in v
  {
    r := [];
    for i := 0 to |v|
      invariant Ascending(r) && forall x: nat :: x in r <==> x in v[..i]
    {
      assert v[..i + 1] == v[..i] + [v[i]];
      assert v[i] !in v[..i];
      r := Insert(r, v[i]);
    }
    assert v[..|v|] == v;
  }

  // The integers of the first k assignments.
  ghost predicate ListsUpTo(b: Bdd, n: nat, k: nat, v: seq<nat>) {
    Distinct(v) && forall x: nat :: x in v <==> exists i: nat :: i < k && i < |b.sats| && 2 * n <= |b.sats[i]| + 1 && Matches(Pattern(b.sats[i], n), x)
  }

  lemma ListsMore(b: Bdd, n: nat, k: nat, v: seq<nat>, added: seq<nat>)
    requires WellFormed(b, n) && k < |b.sats| && ListsUpTo(b, n, k, v) && Expands(Pattern(b.sats[k], n), added)
    ensures ListsUpTo(b, n, k + 1, v + added)
  {
    hide Matches;
    var w := v + added;
    forall i, j | 0 <= i < j < |w| ensures w[i] != w[j] {
      if i < |v| <= j {
        assert w[i] in v && w[j] in added;
      }
    }
    forall x: nat ensures x in w <==> exists i: nat :: i < k + 1 && i < |b.sats| && 2 * n <= |b.sats[i]| + 1 && Matches(Pattern(b.sats[i], n), x) {
      assert x in w <==> x in v || x in added;
    }
  }

  method Expand(b: Bdd, n: nat) returns (v: seq<nat>)
    requires WellFormed(b, n)
    ensures IsExpansion(b, n, v)
  {
    hide Matches, Expands;
    var bddexp: seq<nat> := [];
    for k := 0 to |b.sats|
      invariant ListsUpTo(b, n, k, bddexp)
    {
      ghost var before := bddexp;
      bddexp := Sat2Vec(b.sats[k], n, bddexp);
      assert bddexp == before + bddexp[|before|..];
      ListsMore(b, n, k, before, bddexp[|before|..]);
    }
    v := Sort(bddexp);
  }

  // ---------- The sizes of all vectors ----------

  datatype Entry = Entry(time: nat, vec: seq<nat>)

  type Entries = map<nat, Entry>

  ghost function Total(m: Entries): nat {
    if m == map[] then 0 else var k :| k in m; |m[k].vec| + Total(m - {k})
  }

  lemma {:induction false} TotalWithout(m: Entries, k: nat)
    requires k in m
    ensures Total(m) == |m[k].vec| + Total(m - {k})
    decreases |m|
  {
    var j :| j in m && Total(m) == |m[j].vec| + Total(m - {j});
    if j != k {
      TotalWithout(m - {j}, k);
      TotalWithout(m - {k}, j);
      assert m - {j} - {k} == m - {k} - {j};
    }
  }

  lemma TotalWith(m: Entries, k: nat, e: Entry)
    ensures Total(m[k := e]) == |e.vec| + Total(m - {k})
  {
    TotalWithout(m[k := e], k);
    assert m[k := e] - {k} == m - {k};
  }

  // ---------- The queue of use times ----------

  // Every queued time is that of a cached ID and no newer than the ID's own time, which is
  // queued as well.
  ghost predicate Queued(cache: Entries, lru: map<nat, nat>, now: nat) {
    && (forall t :: t in lru ==> lru[t] in cache && t <= cache[lru[t]].time)
    && (forall id :: id in cache ==> cache[id].time in lru && lru[cache[id].time] == id && cache[id].time <= now)
  }

  predicate LeastOf(t: nat, s: set<nat>) {
    t in s && forall u | u in s :: t <= u
  }

  lemma {:induction false} LeastTime(s: set<nat>)
    requires s != {}
    ensures exists t: nat :: t in s && LeastOf(t, s)
  {
    var a: nat :| a in s;
    var rest := s - {a};
    assert s == rest + {a};
    if rest == {} {
      assert LeastOf(a, s);
    } else {
      LeastTime(rest);
      var t: nat :| t in rest && LeastOf(t, rest);
      var least := if a < t then a else t;
      assert LeastOf(least, rest + {a});
    }
  }

  // A cache that holds anything has something queued.
  lemma NotEmpty(cache: Entries, lru: map<nat, nat>, now: nat)
    requires Queued(cache, lru, now) && Total(cache) > 0
    ensures lru.Keys != {}
  {
  }

  // A time that is still to come is not queued yet.
  lemma FreshTime(cache: Entries, lru: map<nat, nat>, now: nat)
    requires Queued(cache, lru, now)
    ensures forall t :: t in lru ==> t <= now
  {
  }

  lemma HitQueued(cache: Entries, lru: map<nat, nat>, now: nat, id: nat)
    requires Queued(cache, lru, now) && id in cache
    ensures Queued(cache[id := Entry(now + 1, cache[id].vec)], lru[now + 1 := id], now + 1)
  {
  }

  lemma MissQueued(cache: Entries, lru: map<nat, nat>, now: nat, id: nat, v: seq<nat>)
    requires Queued(cache, lru, now) && id !in cache
    ensures Queued(cache[id := Entry(now + 1, v)], lru[now + 1 := id], now + 2)
  {
  }

  // The least queued time is removed, and the vector with it if that is its last use.
  lemma PopQueued(cache: Entries, lru: map<nat, nat>, now: nat, t: nat)
    requires Queued(cache, lru, now) && LeastOf(t, lru.Keys)
    ensures t in lru && lru[t] in cache
    ensures Queued(if t == cache[lru[t]].time then cache - {lru[t]} else cache, lru - {t}, now)
  {
  }

  // ---------- Which vectors are evicted ----------

  // The entries that were used no earlier than k.
  ghost function SinceUse(m: Entries, k: nat): Entries
    requires k in m
  {
    map id | id in m && m[id].time >= m[k].time :: m[id]
  }

  lemma {:induction false} TotalMonotone(a: Entries, b: Entries)
    requires Remains(b, a)
    ensures Total(a) <= Total(b)
    decreases |a|
  {
    if a != map[] {
      var k :| k in a;
      TotalWithout(a, k);
      TotalWithout(b, k);
      TotalMonotone(a - {k}, b - {k});
    }
  }

  // Evicting in the order of use until the rest is below the limit: a vector stays if and only
  // if the vectors used no earlier are below the limit together.
  ghost predicate RightlyEvicted(all: Entries, cache: Entries, limit: nat) {
    Remains(all, cache) && forall k :: k in all ==> (k in cache <==> Total(SinceUse(all, k)) < limit)
  }

  ghost predicate OnlyExcess(all: Entries, cache: Entries, limit: nat) {
    forall k :: k in all && k !in cache ==> Total(SinceUse(all, k)) >= limit
  }

  // All that remains is used no earlier than an entry whose time is the least one queued.
  lemma OneMoreEvicted(all: Entries, cache: Entries, lru: map<nat, nat>, now: nat, id: nat, limit: nat)
    requires OnlyExcess(all, cache, limit) && Remains(all, cache) && Queued(cache, lru, now) && Total(cache) >= limit
    requires id in cache && LeastOf(cache[id].time, lru.Keys)
    ensures OnlyExcess(all, cache - {id}, limit)
  {
    hide Total;
    assert Remains(SinceUse(all, id), cache);
    TotalMonotone(cache, SinceUse(all, id));
  }

  lemma EvictedExactly(all: Entries, cache: Entries, limit: nat)
    requires OnlyExcess(all, cache, limit) && Remains(all, cache) && Total(cache) < limit
    requires forall id, k :: id in cache && k in all && k !in cache ==> all[k].time < cache[id].time
    ensures RightlyEvicted(all, cache, limit)
  {
    hide Total;
    forall k | k in cache ensures Total(SinceUse(all, k)) < limit {
      assert Remains(cache, SinceUse(all, k));
      TotalMonotone(SinceUse(all, k), cache);
    }
  }

  // ---------- The order of requests ----------

  // The times of use order the cached IDs as their last requests do.
  ghost predicate Chronicle(cache: Entries, last: map<nat, nat>, requests: nat) {
    && (forall id :: id in cache ==> id in last && last[id] <= requests)
    && (forall a, b :: a in cache && b in cache ==> (cache[a].time < cache[b].time <==> last[a] < last[b]))
  }

  // b was requested, and is cached with a time later than all others.
  lemma OneMoreRequest(all: Entries, cache: Entries, last: map<nat, nat>, requests: nat, id: nat)
    requires Chronicle(all, last, requests) && id in cache
    requires forall k :: k in cache && k != id ==> k in all && cache[k] == all[k] && cache[k].time < cache[id].time
    ensures Chronicle(cache, last[id := requests + 1], requests + 1)
  {
  }

  // ---------- The cache ----------

  class Cache {
    // The number of bits of a member.
    const bits: nat
    // The time of last use and the vector, by ID.
    var bvCache: Entries
    var bvcSz: nat
    var evicted: set<nat>
    var bvTime: nat
    // A priority queue of use times, each with the ID used then.
    var bvLru: map<nat, nat>
    // What each cached ID stands for.
    ghost var source: map<nat, Bdd>
    // The number of requests so far, and that of the last request of each ID.
    ghost var requests: nat
    ghost var last: map<nat, nat>

    ghost predicate Valid()
      reads this
    {
      Sound(bvTime) && Chronicle(bvCache, last, requests)
    }

    // The cache and its queue as of the given time.
    ghost predicate Sound(now: nat)
      reads this
    {
      Queued(bvCache, bvLru, now) && bvcSz == Total(bvCache) && Faithful(bvCache, source, bits)
    }

    constructor (n: nat)
      ensures Valid() && bits == n && bvCache == map[] && source == map[] && requests == 0
    {
      bits, bvCache, bvcSz, evicted, bvTime, bvLru, source := n, map[], 0, {}, 0, map[], map[];
      requests, last := 0, map[];
    }

    // The members of b in increasing order, from the cache if it is there.  An ID names one
    // fixed set.
    method Bdd2Vec(b: Bdd) returns (v: seq<nat>)
      requires Valid() && WellFormed(b, bits)
      requires b.id in source ==> SameMembers(source[b.id], b, bits)
      modifies this
      ensures Valid() && IsExpansion(b, bits, v)
      ensures bvcSz == old(bvcSz) || bvcSz < UPPER + |v|
      ensures source == if b.sats == [] || b.id in old(bvCache) then old(source) else old(source)[b.id := b]
      ensures b.sats == [] ==> bvCache == old(bvCache) && requests == old(requests) && last == old(last)
      // b is the ID used last, both by its time and by the requests made.
      ensures b.sats != [] ==> requests == old(requests) + 1 && last == old(last)[b.id := requests]
      ensures b.sats != [] ==> b.id in bvCache && bvCache[b.id].vec == v && forall t :: t in old(bvLru) ==> t < bvCache[b.id].time
      ensures b.sats != [] ==> forall k :: k in bvCache && k != b.id ==>
        k in old(bvCache) && bvCache[k] == old(bvCache[k]) && bvCache[k].time < bvCache[b.id].time
      // Nothing is evicted but when a new vector comes to a full cache; then the IDs requested
      // least recently go, and no more than needed.
      ensures b.sats != [] && (b.id in old(bvCache) || old(bvcSz) < UPPER) ==> bvCache.Keys == old(bvCache.Keys) + {b.id}
      ensures b.sats != [] && b.id !in old(bvCache) && old(bvcSz) >= UPPER ==>
        RightlyEvicted(old(bvCache), bvCache - {b.id}, LOWER)
      ensures forall k, id :: k in old(bvCache) && k !in bvCache && id in bvCache ==> old(last)[k] < last[id]
    {
      hide Covers, WellFormed, Total, Ascending, Queued, Faithful, IsExpansion, SameMembers, Chronicle, RightlyEvicted, SinceUse;
      if b.sats == [] {
        v := [];
        NothingCovered(b, bits);
        return;
      }
      FreshTime(bvCache, bvLru, bvTime);
      CachedTimes(bvCache, bvLru, bvTime);
      Requested(bvCache, last, requests);
      bvTime := bvTime + 1;
      if b.id in bvCache {
        // Update the time of a cached vector.
        v := Touch(b.id);
        CachedVector(bvCache, source, bits, b);
      } else {
        v := Fill(b);
      }
      OneMoreRequest(old(bvCache), bvCache, last, requests, b.id);
      requests := requests + 1;
      last := last[b.id := requests];
    }

    // Expand b, and make room for it if the cache is full.
    method Fill(b: Bdd) returns (v: seq<nat>)
      requires bvTime > 0 && Sound(bvTime - 1) && Chronicle(bvCache, last, requests) && WellFormed(b, bits) && b.id !in bvCache
      modifies this`bvCache, this`bvcSz, this`evicted, this`bvLru, this`source, this`bvTime
      ensures Sound(bvTime) && IsExpansion(b, bits, v) && source == old(source)[b.id := b] && bvcSz < UPPER + |v|
      ensures b.id in bvCache && bvCache[b.id] == Entry(old(bvTime), v) && Remains(old(bvCache), bvCache - {b.id})
      ensures old(bvcSz) < UPPER ==> bvCache - {b.id} == old(bvCache)
      ensures old(bvcSz) >= UPPER ==> RightlyEvicted(old(bvCache), bvCache - {b.id}, LOWER)
      ensures forall k, id :: k in old(bvCache) && k !in bvCache && id in bvCache && id != b.id ==> old(last)[k] < last[id]
    {
      hide Covers, WellFormed, Total, Ascending, Queued, Faithful, IsExpansion, SameMembers, Chronicle, RightlyEvicted, SinceUse, Remains;
      NoneGone(bvCache);
      Requested(bvCache, last, requests);
      if bvcSz >= UPPER {
        Evict();
        EvictedBefore(old(bvCache), bvCache, last, requests);
      }
      v := Expand(b, bits);
      assert bvCache[b.id := Entry(bvTime, v)] - {b.id} == bvCache by { StillNot(old(bvCache), bvCache, b.id); }
      Store(b, v);
    }

    // A cached vector is used at the present time.
    method Touch(id: nat) returns (v: seq<nat>)
      requires bvTime > 0 && Sound(bvTime - 1) && id in bvCache
      modifies this`bvCache, this`bvLru
      ensures Sound(bvTime) && v == old(bvCache[id].vec)
      ensures bvCache == old(bvCache)[id := Entry(bvTime, v)] && bvLru == old(bvLru)[bvTime := id]
    {
      hide Queued, Total, IsExpansion;
      v := bvCache[id].vec;
      HitQueued(bvCache, bvLru, bvTime - 1, id);
      TotalWithout(bvCache, id);
      TotalWith(bvCache, id, Entry(bvTime, v));
      bvCache := bvCache[id := Entry(bvTime, v)];
      bvLru := bvLru[bvTime := id];
    }

    method Store(b: Bdd, v: seq<nat>)
      requires bvTime > 0 && Sound(bvTime - 1)
      requires b.id !in bvCache && IsExpansion(b, bits, v)
      modifies this`bvCache, this`bvcSz, this`bvLru, this`source, this`bvTime
      ensures Sound(bvTime) && bvTime == old(bvTime) + 1 && bvcSz == old(bvcSz) + |v| && source == old(source)[b.id := b]
      ensures bvCache == old(bvCache)[b.id := Entry(old(bvTime), v)] && bvLru == old(bvLru)[old(bvTime) := b.id]
    {
      hide Queued, Total, IsExpansion;
      MissQueued(bvCache, bvLru, bvTime - 1, b.id, v);
      TotalWith(bvCache, b.id, Entry(bvTime, v));
      assert bvCache - {b.id} == bvCache;
      bvCache := bvCache[b.id := Entry(bvTime, v)];
      bvcSz := bvcSz + |v|;
      bvLru := bvLru[bvTime := b.id];
      source := source[b.id := b];
      bvTime := bvTime + 1;
    }

    // Remove the vectors that were used least recently, until enough is free.
    method Evict()
      requires bvTime > 0 && Sound(bvTime - 1)
      modifies this`bvCache, this`bvcSz, this`evicted, this`bvLru
      ensures Sound(bvTime - 1) && bvcSz < LOWER
      ensures RightlyEvicted(old(bvCache), bvCache, LOWER)
      ensures Remains(old(bvCache), bvCache) && evicted == old(evicted) + (old(bvCache).Keys - bvCache.Keys)
      // Whatever was evicted was used before everything that remains.
      ensures forall id, k :: id in bvCache && k in old(bvCache) && k !in bvCache ==> old(bvCache[k]).time < bvCache[id].time
    {
      hide Total, Faithful, Queued, OnlyExcess, RightlyEvicted, SinceUse, OlderGone;
      NoneEvicted(bvCache, bvLru, LOWER);
      while bvcSz >= LOWER
        invariant Sound(bvTime - 1) && evicted == old(evicted) + (old(bvCache).Keys - bvCache.Keys)
        invariant Remains(old(bvCache), bvCache) && OlderGone(old(bvCache), bvCache, bvLru)
        invariant OnlyExcess(old(bvCache), bvCache, LOWER)
        decreases |bvLru|
      {
        ghost var cache := bvCache;
        EvictOne(old(bvCache));
        MoreEvicted(old(bvCache), cache, bvCache);
      }
      OlderThanAll(old(bvCache), bvCache, bvLru, bvTime - 1);
      EvictedExactly(old(bvCache), bvCache, LOWER);
    }

    // Take the least use time off the queue; its vector goes if it was not used since.
    method EvictOne(ghost all: Entries)
      requires bvTime > 0 && Sound(bvTime - 1) && bvcSz >= LOWER
      requires Remains(all, bvCache) && OlderGone(all, bvCache, bvLru) && OnlyExcess(all, bvCache, LOWER)
      modifies this`bvCache, this`bvcSz, this`evicted, this`bvLru
      ensures Sound(bvTime - 1) && OnlyExcess(all, bvCache, LOWER)
      ensures Remains(all, bvCache) && OlderGone(all, bvCache, bvLru) && |bvLru| < |old(bvLru)|
      ensures Remains(old(bvCache), bvCache) && evicted == old(evicted) + (old(bvCache).Keys - bvCache.Keys)
    {
      hide Total, Faithful, Queued, OlderGone, OnlyExcess, LeastOf, Remains;
      NotEmpty(bvCache, bvLru, bvTime - 1);
      LeastTime(bvLru.Keys);
      var t: nat :| t in bvLru.Keys && LeastOf(t, bvLru.Keys);
      PopQueued(bvCache, bvLru, bvTime - 1, t);
      PopOlder(all, bvCache, bvLru, source, bits, t);
      NoneGone(bvCache);
      var id := bvLru[t];
      FewerQueued(bvLru, t);
      // Some times may be older than that of the vector.
      if t == bvCache[id].time {
        OneMoreEvicted(all, bvCache, bvLru, bvTime - 1, id, LOWER);
        TotalWithout(bvCache, id);
        OneGone(bvCache, id);
        // Update the size only if the vector is deleted.
        bvcSz := bvcSz - |bvCache[id].vec|;
        bvCache := bvCache - {id};
        evicted := evicted + {id};
      }
      bvLru := bvLru - {t};
    }
  }

  lemma StillNot(all: Entries, cache: Entries, id: nat)
    requires Remains(all, cache) && id !in all
    ensures id !in cache
  {
  }

  lemma FewerQueued(lru: map<nat, nat>, t: nat)
    requires t in lru
    ensures |lru - {t}| < |lru|
  {
    assert lru.Keys == (lru - {t}).Keys + {t};
  }

  lemma NoneGone(cache: Entries)
    ensures Remains(cache, cache) && cache.Keys - cache.Keys == {}
  {
  }

  lemma OneGone(cache: Entries, id: nat)
    requires id in cache
    ensures cache.Keys - (cache - {id}).Keys == {id} && Remains(cache, cache - {id})
  {
  }

  lemma NoneEvicted(all: Entries, lru: map<nat, nat>, limit: nat)
    ensures OnlyExcess(all, all, limit) && OlderGone(all, all, lru) && all.Keys - all.Keys == {}
  {
  }

  lemma MoreEvicted(all: Entries, cache: Entries, rest: Entries)
    requires Remains(all, cache) && Remains(cache, rest)
    ensures (all.Keys - cache.Keys) + (cache.Keys - rest.Keys) == all.Keys - rest.Keys
  {
  }

  lemma Requested(cache: Entries, last: map<nat, nat>, requests: nat)
    requires Chronicle(cache, last, requests)
    ensures forall id :: id in cache ==> id in last && last[id] <= requests
  {
  }

  lemma CachedTimes(cache: Entries, lru: map<nat, nat>, now: nat)
    requires Queued(cache, lru, now)
    ensures forall id :: id in cache ==> cache[id].time <= now
  {
  }

  lemma EvictedBefore(all: Entries, cache: Entries, last: map<nat, nat>, requests: nat)
    requires Chronicle(all, last, requests) && Remains(all, cache)
    requires forall id, k :: id in cache && k in all && k !in cache ==> all[k].time < cache[id].time
    ensures forall id, k :: id in cache && k in all && k !in cache ==> last[k] < last[id]
  {
  }

  lemma PopOlder(all: Entries, cache: Entries, lru: map<nat, nat>, source: map<nat, Bdd>, n: nat, t: nat)
    requires Remains(all, cache) && OlderGone(all, cache, lru) && Faithful(cache, source, n) && LeastOf(t, lru.Keys) && lru[t] in cache
    ensures var cache' := if t == cache[lru[t]].time then cache - {lru[t]} else cache;
      Remains(all, cache') && OlderGone(all, cache', lru - {t}) && Faithful(cache', source, n)
  {
  }

  // Every cached vector is the expansion of what its ID stands for.
  ghost predicate Faithful(cache: Entries, source: map<nat, Bdd>, n: nat) {
    forall id :: id in cache ==> id in source && IsExpansion(source[id], n, cache[id].vec)
  }

  ghost predicate SameMembers(a: Bdd, b: Bdd, n: nat) {
    forall x: nat :: Covers(a, n, x) <==> Covers(b, n, x)
  }

  // What is left of the cache is unchanged.
  ghost predicate Remains(all: Entries, cache: Entries) {
    forall id :: id in cache ==> id in all && cache[id] == all[id]
  }

  // What is gone was last used before every time that is still queued.
  ghost predicate OlderGone(all: Entries, cache: Entries, lru: map<nat, nat>) {
    forall k, t :: k in all && k !in cache && t in lru ==> all[k].time < t
  }

  lemma OlderThanAll(all: Entries, cache: Entries, lru: map<nat, nat>, now: nat)
    requires OlderGone(all, cache, lru) && Queued(cache, lru, now)
    ensures forall id, k :: id in cache && k in all && k !in cache ==> all[k].time < cache[id].time
  {
  }

  lemma CachedVector(cache: Entries, source: map<nat, Bdd>, n: nat, b: Bdd)
    requires Faithful(cache, source, n) && b.id in cache && (b.id in source ==> SameMembers(source[b.id], b, n))
    ensures IsExpansion(b, n, cache[b.id].vec)
  {
  }

  lemma NothingCovered(b: Bdd, n: nat)
    requires b.sats == []
    ensures IsExpansion(b, n, [])
  {
  }
}
