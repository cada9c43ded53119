/**
 The in-memory cache of pkg/services/cache_service.go: three maps with expiring entries and hit
 counters.  The specification is a log of the calls made so far: a Get must return what the
 latest Set left there, unless an Invalidate or ClearAll came later or the entry ran out.
 */
module TtlCache {
  import opened Wrappers

  datatype Entry<V> = Entry(data: V, expiresAt: int)

  predicate IsExpired<V>(e: Entry<V>, now: int) {
    now > e.expiresAt
  }

  datatype Op<V> = Set(key: string, data: V, at: int, ttl: int) | Invalidate(key: string) | Clear
                 | Get(key: string, at: int)

  /** The calls made so far, the latest one outermost. */
  datatype Log<V> = Start | Then(earlier: Log<V>, op: Op<V>)

  /** The entry of the latest Set of a key that was not invalidated or cleared afterwards. */
  function Latest<V>(log: Log<V>, key: string): Option<Entry<V>> {
    match log
    case Start => None
    case Then(earlier, Set(k, data, at, ttl)) => if k == key then Some(Entry(data, at + ttl)) else Latest(earlier, key)
    case Then(earlier, Invalidate(k)) => if k == key then None else Latest(earlier, key)
    case Then(_, Clear) => None
    case Then(earlier, Get(_, _)) => Latest(earlier, key)
  }

  function Lookup<V>(log: Log<V>, key: string, now: int): Option<V> {
    var e := Latest(log, key);
    if e.Some? && !IsExpired(e.value, now) then Some(e.value.data) else None
  }

  /** How many of the Gets in the log found something. */
  function Hits<V>(log: Log<V>): nat {
    match log
    case Start => 0
    case Then(earlier, op) => Hits(earlier) + if op.Get? && Lookup(earlier, op.key, op.at).Some? then 1 else 0
  }

  function Gets<V>(log: Log<V>): nat {
    match log
    case Start => 0
    case Then(earlier, op) => Gets(earlier) + if op.Get? then 1 else 0
  }

  ghost predicate Holds<V>(cache: map<string, Entry<V>>, log: Log<V>, now: int, key: string) {
    var e := Latest(log, key);
    if key in cache then e == Some(cache[key]) else e.None? || IsExpired(e.value, now)
  }

  /** A map represents a log at a time: what is missing from it has expired or was removed. */
  ghost predicate Represents<V>(cache: map<string, Entry<V>>, log: Log<V>, now: int) {
    forall key: string :: Holds(cache, log, now, key)
  }

  function Live<V>(cache: map<string, Entry<V>>, now: int): map<string, Entry<V>> {
    map key | key in cache && !IsExpired(cache[key], now) :: cache[key]
  }

  function ExpiredKeys<V>(cache: map<string, Entry<V>>, now: int): set<string> {
    set key | key in cache && IsExpired(cache[key], now)
  }

  // ---- The loops over a map ---------------------------------------------------------------

  /** Successive readings of the clock; the loops read it once for each entry. */
  ghost predicate Monotone(clock: nat -> int) {
    forall i: nat, j: nat :: i <= j ==> clock(i) <= clock(j)
  }

  /** A sweep between two times drops expired entries only, and all that had expired at its start. */
  ghost predicate Swept<V>(cache: map<string, Entry<V>>, live: map<string, Entry<V>>, start: int, end: int) {
    && (forall key :: key in live ==> key in cache && live[key] == cache[key] && !IsExpired(cache[key], start))
    && (forall key :: key in cache && key !in live ==> IsExpired(cache[key], end))
  }

  method DropExpired<V>(cache: map<string, Entry<V>>, clock: nat -> int, from: nat)
    returns (live: map<string, Entry<V>>, dropped: nat)
    requires Monotone(clock)
    ensures Swept(cache, live, clock(from), clock(from + |cache|))
    ensures |live| + dropped == |cache|
  {
    live, dropped := cache, 0;
    var pending, n := cache.Keys, from;
    while pending != {}
      invariant pending <= cache.Keys && n + |pending| == from + |cache|
      invariant forall key :: key in live ==> key in cache && live[key] == cache[key]
      invariant forall key :: key in live && key !in pending ==> !IsExpired(cache[key], clock(from))
      invariant forall key :: key in cache && key !in live ==>
                  key !in pending && IsExpired(cache[key], clock(from + |cache|))
      invariant |live| + dropped == |cache|
      decreases |pending|
    {
      var key :| key in pending;
      pending := pending - {key};
      assert clock(from) <= clock(n) <= clock(from + |cache|);
      if IsExpired(live[key], clock(n)) {
        live := live - {key};
        dropped := dropped + 1;
      }
      n := n + 1;
    }
  }

  lemma SubsetIsSmaller(a: set<string>, b: set<string>)
    requires a <= b
    ensures |a| <= |b|
  {
    assert b == a + (b - a);
  }

  lemma ExpireMore<V>(cache: map<string, Entry<V>>, now: int, later: int)
    requires now <= later
    ensures |ExpiredKeys(cache, now)| <= |ExpiredKeys(cache, later)|
  {
    SubsetIsSmaller(ExpiredKeys(cache, now), ExpiredKeys(cache, later));
  }

  /** The count lies between the numbers of entries expired at its start and at its end. */
  method CountExpired<V>(cache: map<string, Entry<V>>, clock: nat -> int, from: nat) returns (n: nat)
    requires Monotone(clock)
    ensures |ExpiredKeys(cache, clock(from))| <= n <= |ExpiredKeys(cache, clock(from + |cache|))|
  {
    n := 0;
    var pending, at := cache.Keys, from;
    ghost var seen: set<string> := {};
    while pending != {}
      invariant pending <= cache.Keys && at + |pending| == from + |cache|
      invariant ExpiredKeys(cache, clock(from)) - pending <= seen <= ExpiredKeys(cache, clock(from + |cache|)) - pending
      invariant n == |seen|
      decreases |pending|
    {
      var key :| key in pending;
      pending := pending - {key};
      assert clock(from) <= clock(at) <= clock(from + |cache|);
      if IsExpired(cache[key], clock(at)) {
        n, seen := n + 1, seen + {key};
      }
      at := at + 1;
    }
    assert ExpiredKeys(cache, clock(from)) - pending == ExpiredKeys(cache, clock(from));
    SubsetIsSmaller(ExpiredKeys(cache, clock(from)), seen);
    SubsetIsSmaller(seen, ExpiredKeys(cache, clock(from + |cache|)));
  }

  // ---- One map against its log ------------------------------------------------------------

  lemma LaterStillRepresents<V>(cache: map<string, Entry<V>>, log: Log<V>, now: int, later: int)
    requires Represents(cache, log, now) && now <= later
    ensures Represents(cache, log, later)
  {
    forall key: string
      ensures Holds(cache, log, later, key)
    {
      assert Holds(cache, log, now, key);
    }
  }

  /** A sweep leaves nothing that had expired when it began, and is invisible once it is over. */
  lemma SweptStillRepresents<V>(cache: map<string, Entry<V>>, live: map<string, Entry<V>>, log: Log<V>,
                                now: int, first: int, start: int, end: int, later: int)
    requires Represents(cache, log, now) && Swept(cache, live, start, end)
    requires now <= first <= start && end <= later && first <= later
    ensures Represents(live, log, later) && ExpiredKeys(live, first) == {}
  {
    forall key: string
      ensures Holds(live, log, later, key)
    {
      assert Holds(cache, log, now, key);
    }
  }

  method SweepMap<V>(cache: map<string, Entry<V>>, ghost log: Log<V>, ghost now: int, clock: nat -> int, from: nat,
                  ghost end: nat) returns (live: map<string, Entry<V>>, dropped: nat)
    requires Represents(cache, log, now) && Monotone(clock) && now <= clock(0) && from + |cache| <= end
    ensures Represents(live, log, clock(end)) && ExpiredKeys(live, clock(0)) == {}
    ensures |live| + dropped == |cache|
  {
    live, dropped := DropExpired(cache, clock, from);
    SweptStillRepresents(cache, live, log, now, clock(0), clock(from), clock(from + |cache|), clock(end));
  }

  lemma Looked<V>(cache: map<string, Entry<V>>, log: Log<V>, now: int, key: string, later: int)
    requires Represents(cache, log, now) && now <= later
    ensures Represents(cache, Then(log, Get(key, later)), later)
    ensures Lookup(log, key, later) ==
            if key in cache && !IsExpired(cache[key], later) then Some(cache[key].data) else None
    ensures Hits(Then(log, Get(key, later))) == Hits(log) + if Lookup(log, key, later).Some? then 1 else 0
    ensures Gets(Then(log, Get(key, later))) == Gets(log) + 1
  {
    assert Holds(cache, log, now, key);
    forall k: string
      ensures Holds(cache, Then(log, Get(key, later)), later, k)
    {
      assert Holds(cache, log, now, k);
    }
  }

  lemma Stored<V>(cache: map<string, Entry<V>>, log: Log<V>, now: int, key: string, data: V, later: int, ttl: int)
    requires Represents(cache, log, now) && now <= later
    ensures var log' := Then(log, Set(key, data, later, ttl));
            && Represents(cache[key := Entry(data, later + ttl)], log', later)
            && Hits(log') == Hits(log) && Gets(log') == Gets(log)
  {
    var log', cache' := Then(log, Set(key, data, later, ttl)), cache[key := Entry(data, later + ttl)];
    forall k: string
      ensures Holds(cache', log', later, k)
    {
      assert Holds(cache, log, now, k);
    }
  }

  lemma Removed<V>(cache: map<string, Entry<V>>, log: Log<V>, now: int, key: string)
    requires Represents(cache, log, now)
    ensures var log' := Then(log, Invalidate(key));
            Represents(cache - {key}, log', now) && Hits(log') == Hits(log) && Gets(log') == Gets(log)
  {
    var log', cache' := Then(log, Invalidate(key)), cache - {key};
    forall k: string
      ensures Holds(cache', log', now, k)
    {
      assert Holds(cache, log, now, k);
    }
  }

  // ---- The service ------------------------------------------------------------------------

  datatype CacheStats = CacheStats(registryHits: nat, registryMisses: nat,
                                   mcpServerHits: nat, mcpServerMisses: nat,
                                   registryServersHits: nat, registryServersMisses: nat,
                                   totalEntries: nat, expiredEntries: nat)

  class CacheService<R, S> {
    var registryCache: map<string, Entry<R>>
    var mcpServerCache: map<string, Entry<S>>
    var registryServersCache: map<string, Entry<seq<S>>>
    var stats: CacheStats

    ghost var registryLog: Log<R>
    ghost var mcpServerLog: Log<S>
    ghost var registryServersLog: Log<seq<S>>
    ghost var clock: int

    ghost predicate Valid()
      reads this
    {
      && Represents(registryCache, registryLog, clock)
      && Represents(mcpServerCache, mcpServerLog, clock)
      && Represents(registryServersCache, registryServersLog, clock)
      && stats.registryHits == Hits(registryLog)
      && stats.registryHits + stats.registryMisses == Gets(registryLog)
      && stats.mcpServerHits == Hits(mcpServerLog)
      && stats.mcpServerHits + stats.mcpServerMisses == Gets(mcpServerLog)
      && stats.registryServersHits == Hits(registryServersLog)
      && stats.registryServersHits + stats.registryServersMisses == Gets(registryServersLog)
    }

    /** How many entries have expired at a time. */
    ghost function Expired(now: int): nat
      reads this
    {
      |ExpiredKeys(registryCache, now)| + |ExpiredKeys(mcpServerCache, now)| + |ExpiredKeys(registryServersCache, now)|
    }

    constructor (ghost now: int)
      ensures Valid() && clock == now
      ensures registryLog == Start && mcpServerLog == Start && registryServersLog == Start
    {
      registryCache, mcpServerCache, registryServersCache := map[], map[], map[];
      stats := CacheStats(0, 0, 0, 0, 0, 0, 0, 0);
      registryLog, mcpServerLog, registryServersLog, clock := Start, Start, Start, now;
    }

    method GetRegistry(key: string, now: int) returns (registry: Option<R>)
      requires Valid() && clock <= now
      modifies this`stats, this`registryLog, this`clock
      ensures Valid() && clock == now
      ensures registry == Lookup(old(registryLog), key, now)
      ensures registryLog == Then(old(registryLog), Get(key, now))
    {
      Looked(registryCache, registryLog, clock, key, now);
      LaterStillRepresents(mcpServerCache, mcpServerLog, clock, now);
      LaterStillRepresents(registryServersCache, registryServersLog, clock, now);
      registryLog, clock := Then(registryLog, Get(key, now)), now;
      if key !in registryCache || IsExpired(registryCache[key], now) {
        stats := stats.(registryMisses := stats.registryMisses + 1);
        return None;
      }
      stats := stats.(registryHits := stats.registryHits + 1);
      registry := Some(registryCache[key].data);
    }

    method SetRegistry(key: string, registry: R, now: int, ttl: int)
      requires Valid() && clock <= now
      modifies this`registryCache, this`registryLog, this`clock
      ensures Valid() && clock == now
      ensures registryLog == Then(old(registryLog), Set(key, registry, now, ttl))
    {
      Stored(registryCache, registryLog, clock, key, registry, now, ttl);
      LaterStillRepresents(mcpServerCache, mcpServerLog, clock, now);
      LaterStillRepresents(registryServersCache, registryServersLog, clock, now);
      registryLog, clock := Then(registryLog, Set(key, registry, now, ttl)), now;
      registryCache := registryCache[key := Entry(registry, now + ttl)];
    }

    method InvalidateRegistry(key: string)
      requires Valid()
      modifies this`registryCache, this`registryLog
      ensures Valid()
      ensures registryLog == Then(old(registryLog), Invalidate(key))
    {
      Removed(registryCache, registryLog, clock, key);
      registryLog := Then(registryLog, Invalidate(key));
      registryCache := registryCache - {key};
    }

    method GetMCPServer(key: string, now: int) returns (server: Option<S>)
      requires Valid() && clock <= now
      modifies this`stats, this`mcpServerLog, this`clock
      ensures Valid() && clock == now
      ensures server == Lookup(old(mcpServerLog), key, now)
      ensures mcpServerLog == Then(old(mcpServerLog), Get(key, now))
    {
      Looked(mcpServerCache, mcpServerLog, clock, key, now);
      LaterStillRepresents(registryCache, registryLog, clock, now);
      LaterStillRepresents(registryServersCache, registryServersLog, clock, now);
      mcpServerLog, clock := Then(mcpServerLog, Get(key, now)), now;
      if key !in mcpServerCache || IsExpired(mcpServerCache[key], now) {
        stats := stats.(mcpServerMisses := stats.mcpServerMisses + 1);
        return None;
      }
      stats := stats.(mcpServerHits := stats.mcpServerHits + 1);
      server := Some(mcpServerCache[key].data);
    }

    method SetMCPServer(key: string, server: S, now: int, ttl: int)
      requires Valid() && clock <= now
      modifies this`mcpServerCache, this`mcpServerLog, this`clock
      ensures Valid() && clock == now
      ensures mcpServerLog == Then(old(mcpServerLog), Set(key, server, now, ttl))
    {
      Stored(mcpServerCache, mcpServerLog, clock, key, server, now, ttl);
      LaterStillRepresents(registryCache, registryLog, clock, now);
      LaterStillRepresents(registryServersCache, registryServersLog, clock, now);
      mcpServerLog, clock := Then(mcpServerLog, Set(key, server, now, ttl)), now;
      mcpServerCache := mcpServerCache[key := Entry(server, now + ttl)];
    }

    method InvalidateMCPServer(key: string)
      requires Valid()
      modifies this`mcpServerCache, this`mcpServerLog
      ensures Valid()
      ensures mcpServerLog == Then(old(mcpServerLog), Invalidate(key))
    {
      Removed(mcpServerCache, mcpServerLog, clock, key);
      mcpServerLog := Then(mcpServerLog, Invalidate(key));
      mcpServerCache := mcpServerCache - {key};
    }

    method GetRegistryServers(key: string, now: int) returns (servers: Option<seq<S>>)
      requires Valid() && clock <= now
      modifies this`stats, this`registryServersLog, this`clock
      ensures Valid() && clock == now
      ensures servers == Lookup(old(registryServersLog), key, now)
      ensures registryServersLog == Then(old(registryServersLog), Get(key, now))
    {
      Looked(registryServersCache, registryServersLog, clock, key, now);
      LaterStillRepresents(registryCache, registryLog, clock, now);
      LaterStillRepresents(mcpServerCache, mcpServerLog, clock, now);
      registryServersLog, clock := Then(registryServersLog, Get(key, now)), now;
      if key !in registryServersCache || IsExpired(registryServersCache[key], now) {
        stats := stats.(registryServersMisses := stats.registryServersMisses + 1);
        return None;
      }
      stats := stats.(registryServersHits := stats.registryServersHits + 1);
      servers := Some(registryServersCache[key].data);
    }

    method SetRegistryServers(key: string, servers: seq<S>, now: int, ttl: int)
      requires Valid() && clock <= now
      modifies this`registryServersCache, this`registryServersLog, this`clock
      ensures Valid() && clock == now
      ensures registryServersLog == Then(old(registryServersLog), Set(key, servers, now, ttl))
    {
      Stored(registryServersCache, registryServersLog, clock, key, servers, now, ttl);
      LaterStillRepresents(registryCache, registryLog, clock, now);
      LaterStillRepresents(mcpServerCache, mcpServerLog, clock, now);
      registryServersLog, clock := Then(registryServersLog, Set(key, servers, now, ttl)), now;
      registryServersCache := registryServersCache[key := Entry(servers, now + ttl)];
    }

    method InvalidateRegistryServers(key: string)
      requires Valid()
      modifies this`registryServersCache, this`registryServersLog
      ensures Valid()
      ensures registryServersLog == Then(old(registryServersLog), Invalidate(key))
    {
      Removed(registryServersCache, registryServersLog, clock, key);
      registryServersLog := Then(registryServersLog, Invalidate(key));
      registryServersCache := registryServersCache - {key};
    }

    /** Leaves all logs as they are, so no later Get can tell that it ran. */
    method ClearExpired(readings: nat -> int) returns (cleared: nat)
      requires Valid() && Monotone(readings) && clock <= readings(0)
      modifies this`registryCache, this`mcpServerCache, this`registryServersCache, this`clock
      ensures Valid()
      ensures clock == readings(old(|registryCache| + |mcpServerCache| + |registryServersCache|))
      ensures ExpiredKeys(registryCache, readings(0)) == ExpiredKeys(mcpServerCache, readings(0))
              == ExpiredKeys(registryServersCache, readings(0)) == {}
      ensures |registryCache| + |mcpServerCache| + |registryServersCache| + cleared ==
              old(|registryCache| + |mcpServerCache| + |registryServersCache|)
    {
      var i := |registryCache|;
      var j := i + |mcpServerCache|;
      var end := j + |registryServersCache|;
      var registries, r := SweepMap(registryCache, registryLog, clock, readings, 0, end);
      var servers, m := SweepMap(mcpServerCache, mcpServerLog, clock, readings, i, end);
      var lists, l := SweepMap(registryServersCache, registryServersLog, clock, readings, j, end);
      registryCache, mcpServerCache, registryServersCache, clock := registries, servers, lists, readings(end);
      cleared := r + m + l;
    }

    method ClearAll()
      requires Valid()
      modifies this
      ensures Valid() && clock == old(clock) && stats == old(stats)
      ensures registryLog == Then(old(registryLog), Clear)
      ensures mcpServerLog == Then(old(mcpServerLog), Clear)
      ensures registryServersLog == Then(old(registryServersLog), Clear)
    {
      registryCache, mcpServerCache, registryServersCache := map[], map[], map[];
      registryLog := Then(registryLog, Clear);
      mcpServerLog := Then(mcpServerLog, Clear);
      registryServersLog := Then(registryServersLog, Clear);
    }

    method GetStats(readings: nat -> int) returns (s: CacheStats)
      requires Valid() && Monotone(readings)
      ensures s.registryHits == Hits(registryLog) && s.registryHits + s.registryMisses == Gets(registryLog)
      ensures s.mcpServerHits == Hits(mcpServerLog) && s.mcpServerHits + s.mcpServerMisses == Gets(mcpServerLog)
      ensures s.registryServersHits == Hits(registryServersLog)
      ensures s.registryServersHits + s.registryServersMisses == Gets(registryServersLog)
      ensures s.totalEntries == |registryCache| + |mcpServerCache| + |registryServersCache|
      ensures Expired(readings(0)) <= s.expiredEntries <= Expired(readings(s.totalEntries))
    {
      var i := |registryCache|;
      var j := i + |mcpServerCache|;
      var end := j + |registryServersCache|;
      var r := CountExpired(registryCache, readings, 0);
      var m := CountExpired(mcpServerCache, readings, i);
      var l := CountExpired(registryServersCache, readings, j);
      ExpireMore(registryCache, readings(i), readings(end));
      ExpireMore(mcpServerCache, readings(0), readings(i));
      ExpireMore(mcpServerCache, readings(j), readings(end));
      ExpireMore(registryServersCache, readings(0), readings(j));
      s := stats.(totalEntries := end, expiredEntries := r + m + l);
    }
  }

  // ---- What is found, call by call --------------------------------------------------------

  /** The calls in the order they were made. */
  function Calls<V>(log: Log<V>): seq<Op<V>> {
    match log
    case Start => []
    case Then(earlier, op) => Calls(earlier) + [op]
  }

  /** Whether a call writes or removes what is kept under a key. */
  predicate Touches<V>(op: Op<V>, key: string) {
    op.Clear? || ((op.Set? || op.Invalidate?) && op.key == key)
  }

  /** Call `i` set the key, no later one touched it, and the time to live of that call is not over. */
  ghost predicate InForce<V>(calls: seq<Op<V>>, key: string, now: int, i: nat)
    requires i < |calls|
  {
    && calls[i].Set? && calls[i].key == key && now <= calls[i].at + calls[i].ttl
    && forall j :: i < j < |calls| ==> !Touches(calls[j], key)
  }

  lemma InForceAfter<V>(calls: seq<Op<V>>, op: Op<V>, key: string, now: int)
    ensures var more := calls + [op];
            && (InForce(more, key, now, |calls|) <==> op.Set? && op.key == key && now <= op.at + op.ttl)
            && forall i: nat :: i < |calls| ==>
                 (InForce(more, key, now, i) <==> !Touches(op, key) && InForce(calls, key, now, i))
  {
    var more := calls + [op];
    assert more[|calls|] == op;
    forall i: nat | i < |calls|
      ensures InForce(more, key, now, i) <==> !Touches(op, key) && InForce(calls, key, now, i)
    {
      assert more[i] == calls[i] && forall j :: i < j < |calls| ==> more[j] == calls[j];
    }
  }

  ghost predicate HasValue<V>(calls: seq<Op<V>>, key: string, now: int) {
    exists i: nat :: i < |calls| && InForce(calls, key, now, i)
  }

  /** A Get finds a value exactly if the latest call that touched the key set it and the time to live of that
      call, whatever it was, is not over; and it finds what that call set. */
  lemma {:induction false} FoundIffInForce<V>(log: Log<V>, key: string, now: int)
    ensures var calls := Calls(log);
            && (Lookup(log, key, now).Some? <==> HasValue(calls, key, now))
            && (forall i: nat :: i < |calls| && InForce(calls, key, now, i) ==>
                  Lookup(log, key, now) == Some(calls[i].data))
  {
    if log.Start? {
    } else {
      var before, op := Calls(log.earlier), log.op;
      FoundIffInForce(log.earlier, key, now);
      InForceAfter(before, op, key, now);
      if Touches(op, key) {
        assert Lookup(log, key, now).Some? ==> InForce(before + [op], key, now, |before|);
      } else if i: nat :| i < |before| && InForce(before, key, now, i) {
        assert InForce(before + [op], key, now, i) && (before + [op])[i] == before[i];
      }
    }
  }

  /** A value found is never older than its time to live: with one TTL for all Sets of a key, the Set that a
      Get answers from is at most that TTL back. */
  lemma FoundIsYoungerThanTtl<V>(log: Log<V>, key: string, now: int, ttl: int)
    requires Lookup(log, key, now).Some?
    requires forall op :: op in Calls(log) && op.Set? && op.key == key ==> op.at <= now && op.ttl == ttl
    ensures var calls := Calls(log);
            exists i: nat :: i < |calls| && InForce(calls, key, now, i) && now - ttl <= calls[i].at <= now &&
                             Lookup(log, key, now) == Some(calls[i].data)
  {
    var calls := Calls(log);
    FoundIffInForce(log, key, now);
    var i: nat :| i < |calls| && InForce(calls, key, now, i);
    assert calls[i] in calls;
  }

  /** Call `i` is a Get for which there was a value. */
  ghost predicate FindsAt<V>(calls: seq<Op<V>>, i: nat)
    requires i < |calls|
  {
    calls[i].Get? && HasValue(calls[..i], calls[i].key, calls[i].at)
  }

  ghost function Finding<V>(calls: seq<Op<V>>): set<nat> {
    set i: nat | i < |calls| && FindsAt(calls, i)
  }

  ghost function Getting<V>(calls: seq<Op<V>>): set<nat> {
    set i: nat | i < |calls| && calls[i].Get?
  }

  lemma FindingGrows<V>(calls: seq<Op<V>>, op: Op<V>)
    ensures |Finding(calls + [op])| ==
            |Finding(calls)| + if op.Get? && HasValue(calls, op.key, op.at) then 1 else 0
  {
    var more := calls + [op];
    forall i: nat | i < |calls|
      ensures FindsAt(more, i) <==> FindsAt(calls, i)
    {
      assert more[..i] == calls[..i] && more[i] == calls[i];
    }
    assert more[..|calls|] == calls && more[|calls|] == op;
    assert Finding(more) == Finding(calls) + if FindsAt(more, |calls|) then {|calls|} else {};
  }

  lemma GettingGrows<V>(calls: seq<Op<V>>, op: Op<V>)
    ensures |Getting(calls + [op])| == |Getting(calls)| + if op.Get? then 1 else 0
  {
    assert Getting(calls + [op]) == Getting(calls) + if op.Get? then {|calls|} else {};
  }

  /** The counters count the Gets that found something, and all Gets. */
  lemma {:induction false} CountersCountGets<V>(log: Log<V>)
    ensures Hits(log) == |Finding(Calls(log))| && Gets(log) == |Getting(Calls(log))|
  {
    if log.Start? {
    } else {
      CountersCountGets(log.earlier);
      FindingGrows(Calls(log.earlier), log.op);
      GettingGrows(Calls(log.earlier), log.op);
      if log.op.Get? {
        FoundIffInForce(log.earlier, log.op.key, log.op.at);
      }
    }
  }
}
