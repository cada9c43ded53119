/**
 The cached lookup GetMCPServerByNameIndexed of controllers/mcpserver_controller.go, and what
 happens when lookups, writers and Reconcile's patch-then-invalidate interleave.  A lookup has
 three atomic parts: the cache check, the List, and the Set that fills the cache.  Writes go to
 the API server; the List reads the manager's index, which watch events bring up to date later.
 */
module CachedLookup {
  import opened Wrappers
  import opened TtlCache

  datatype Id = Id(namespace: string, name: string)

  // What an MCPServer object says; only its identity matters here.
  type Content = string

  const FIVE_MINUTES := 300_000_000_000

  function CacheKey(id: Id): string {
    "mcpserver:" + id.namespace + ":" + id.name
  }

  predicate Matches(asked: Id, id: Id) {
    id.name == asked.name && (asked.namespace == "" || id.namespace == asked.namespace)
  }

  function Matching(index: map<Id, Content>, asked: Id): set<Id> {
    set id | id in index && Matches(asked, id)
  }

  lemma SingletonHasOne(ids: set<Id>)
    requires |ids| == 1
    ensures forall a, b :: a in ids && b in ids ==> a == b
    ensures ids != {}
    ensures forall a :: a in ids ==> ids == {a}
  {
    forall a | a in ids
      ensures ids == {a}
    {
      assert |ids - {a}| == 0;
    }
  }

  function Only(ids: set<Id>): (id: Id)
    requires |ids| == 1
    ensures ids == {id}
  {
    SingletonHasOne(ids);
    var id :| id in ids;
    id
  }

  /** The List of the lookup: an empty namespace searches all of them, and the lookup fails
      unless exactly one object matches. */
  function Listed(index: map<Id, Content>, asked: Id): (found: Option<Content>)
    ensures asked.namespace != "" ==> found == if asked in index then Some(index[asked]) else None
  {
    var ids := Matching(index, asked);
    assert asked.namespace != "" ==> ids == if asked in index then {asked} else {};
    if |ids| == 1 then Some(index[Only(ids)]) else None
  }

  /** Nothing else in the index has the name of `id`. */
  predicate Alone(index: map<Id, Content>, id: Id) {
    id in index && forall o :: o in index && o.name == id.name ==> o == id
  }

  /** In all namespaces together, what is found under a name is the single object that has it; if none has it,
      or several do, nothing is. */
  lemma ListedInAllNamespaces(index: map<Id, Content>, id: Id)
    ensures Alone(index, id) ==> Listed(index, Id("", id.name)) == Some(index[id])
    ensures id in index && !Alone(index, id) ==> Listed(index, Id("", id.name)) == None
    ensures (forall o :: o in index ==> o.name != id.name) ==> Listed(index, Id("", id.name)) == None
  {
    var ids := Matching(index, Id("", id.name));
    if Alone(index, id) {
      assert ids == {id};
    } else if id in index {
      var o :| o in index && o.name == id.name && o != id;
      assert {o, id} <= ids;
      if |ids| == 1 {
        SingletonHasOne(ids);
      }
    } else if forall o :: o in index ==> o.name != id.name {
      assert ids == {};
    }
  }

  /** The lookup run on its own. */
  method GetMCPServerByNameIndexed<R>(cache: CacheService<R, Content>, index: map<Id, Content>, asked: Id,
                                      listFails: bool, now: int) returns (server: Option<Content>)
    requires cache.Valid() && cache.clock <= now
    modifies cache
    ensures cache.Valid()
    ensures var cached, log := Lookup(old(cache.mcpServerLog), CacheKey(asked), now),
                               Then(old(cache.mcpServerLog), Get(CacheKey(asked), now));
            if cached.Some? then server == cached && cache.mcpServerLog == log
            else if listFails || Listed(index, asked).None? then server == None && cache.mcpServerLog == log
            else server == Listed(index, asked) &&
                 cache.mcpServerLog == Then(log, Set(CacheKey(asked), server.value, now, FIVE_MINUTES))
    ensures cache.registryLog == old(cache.registryLog)
    ensures cache.registryServersLog == old(cache.registryServersLog)
  {
    var key := CacheKey(asked);
    server := cache.GetMCPServer(key, now);
    if server.Some? {
      return;
    }
    if listFails {
      return None;
    }
    server := Listed(index, asked);
    if server.Some? {
      cache.SetMCPServer(key, server.value, now, FIVE_MINUTES);
    }
  }

  lemma CacheKeyText(id: Id)
    ensures CacheKey(id) == "mcpserver:" + id.namespace + ":" + id.name
    ensures CacheKey(Id("ns", "x")) == "mcpserver:ns:x"
  {
  }

  // Kubernetes names contain no colon; without this the cache key would be ambiguous.
  predicate PlainNamespace(id: Id) {
    ':' !in id.namespace
  }

  /** Two lookups share a cache entry only if they ask for the same namespace and name. */
  lemma CacheKeyIsInjective(a: Id, b: Id)
    requires PlainNamespace(a) && PlainNamespace(b)
    requires CacheKey(a) == CacheKey(b)
    ensures a == b
  {
    var prefix := "mcpserver:";
    var ta, tb := a.namespace + ":" + a.name, b.namespace + ":" + b.name;
    assert CacheKey(a) == prefix + ta && CacheKey(b) == prefix + tb;
    assert ta == CacheKey(a)[|prefix|..] == tb;
    assert ta[|a.namespace|] == ':' && tb[|b.namespace|] == ':';
    assert forall i :: 0 <= i < |a.namespace| ==> ta[i] == a.namespace[i];
    assert forall i :: 0 <= i < |b.namespace| ==> tb[i] == b.namespace[i];
    assert |a.namespace| == |b.namespace|;
    assert a.namespace == ta[..|a.namespace|] == b.namespace;
    assert a.name == ta[|a.namespace| + 1..] == b.name;
  }

  /** Without that restriction it is not: these two share an entry. */
  lemma ColonsMakeKeysCollide()
    ensures CacheKey(Id("a", "b:c")) == CacheKey(Id("a:b", "c"))
  {
  }

  // ---- Interleavings ----------------------------------------------------------------------

  /** A lookup in progress: it missed the cache, and perhaps has its List result already. */
  datatype Flight = Missed(asked: Id) | Holding(asked: Id, found: Content)

  /** The API server's store through all its versions, how far the manager's watch-fed index has
      followed it, the cache, and the lookups in progress. */
  datatype State = State(clock: int, versions: seq<map<Id, Content>>, seen: nat, cache: map<string, Entry<Content>>,
                         flights: map<nat, Flight>)
  {
    function Store(): map<Id, Content> {
      if versions == [] then map[] else versions[|versions| - 1]
    }

    /** What a List returns: the version of the store that the index has reached. */
    function View(): map<Id, Content> {
      if seen < |versions| then versions[seen] else map[]
    }

    predicate Synced() {
      seen == |versions| - 1
    }
  }

  datatype Step =
    | Tick(elapsed: nat)
    | Write(id: Id, content: Content)  // any writer, Reconcile's Patch included
    | Remove(id: Id)
    | Observe                          // the next watch event reaches the index
    | Check(p: nat, asked: Id)         // a lookup starts with its cache check
    | List(p: nat)
    | Fill(p: nat)
    | Drop(id: Id)                     // InvalidateMCPServer
    | Sweep                            // ClearExpired
    | Wipe                             // ClearAll

  /** What the cache answers to a lookup now, if anything. */
  function Answer(s: State, asked: Id): Option<Content> {
    var key := CacheKey(asked);
    if key in s.cache && !IsExpired(s.cache[key], s.clock) then Some(s.cache[key].data) else None
  }

  predicate Enabled(s: State, step: Step) {
    match step
    case Observe => s.seen + 1 < |s.versions|
    case Check(p, _) => p !in s.flights
    case List(p) => p in s.flights && s.flights[p].Missed?
    case Fill(p) => p in s.flights && s.flights[p].Holding?
    case _ => true
  }

  function Apply(s: State, step: Step): State
    requires Enabled(s, step)
  {
    match step
    case Tick(elapsed) => s.(clock := s.clock + elapsed)
    case Write(id, content) => s.(versions := s.versions + [s.Store()[id := content]])
    case Remove(id) => s.(versions := s.versions + [s.Store() - {id}])
    case Observe => s.(seen := s.seen + 1)
    case Check(p, asked) =>
      if Answer(s, asked).Some? then s else s.(flights := s.flights[p := Missed(asked)])
    case List(p) =>
      var found := Listed(s.View(), s.flights[p].asked);
      if found.Some? then s.(flights := s.flights[p := Holding(s.flights[p].asked, found.value)])
      else s.(flights := s.flights - {p})
    case Fill(p) =>
      var f := s.flights[p];
      s.(cache := s.cache[CacheKey(f.asked) := Entry(f.found, s.clock + FIVE_MINUTES)],
         flights := s.flights - {p})
    case Drop(id) => s.(cache := s.cache - {CacheKey(id)})
    case Sweep => s.(cache := Live(s.cache, s.clock))
    case Wipe => s.(cache := map[])
  }

  /** A sweep drops the entries that have expired, and those only: no answer changes. */
  lemma SweepIsInvisible(s: State, asked: Id)
    ensures var s' := Apply(s, Sweep);
            && Answer(s', asked) == Answer(s, asked)
            && (forall key :: key in s'.cache ==> key in s.cache && s'.cache[key] == s.cache[key])
            && (forall key :: key in s'.cache ==> s.clock <= s'.cache[key].expiresAt)
            && s'.(cache := s.cache) == s
  {
  }

  /** A lookup whose three parts nothing comes between is the method above, on a cache that represents a log. */
  lemma AloneIsTheMethod(s: State, log: Log<Content>, asked: Id, p: nat)
    requires Represents(s.cache, log, s.clock) && p !in s.flights
    ensures Answer(s, asked) == Lookup(log, CacheKey(asked), s.clock)
    ensures Answer(s, asked).Some? ==> Apply(s, Check(p, asked)) == s
    ensures Answer(s, asked).None? ==>
              var missed := Apply(s, Check(p, asked));
              var listed, found := Apply(missed, List(p)), Listed(s.View(), asked);
              && listed.cache == s.cache
              && (found.None? ==> listed.flights == s.flights)
              && (found.Some? ==>
                    var filled := Apply(listed, Fill(p));
                    filled.flights == s.flights && filled.versions == s.versions &&
                    Represents(filled.cache,
                               Then(Then(log, Get(CacheKey(asked), s.clock)),
                                    Set(CacheKey(asked), found.value, s.clock, 5 * 60 * 1_000_000_000)), s.clock))
  {
    var key := CacheKey(asked);
    Looked(s.cache, log, s.clock, key, s.clock);
    if Listed(s.View(), asked).Some? {
      Stored(s.cache, Then(log, Get(key, s.clock)), s.clock, key, Listed(s.View(), asked).value, s.clock, FIVE_MINUTES);
    }
  }

  ghost predicate IsRun(s: State, steps: seq<Step>)
    decreases |steps|, 0
  {
    steps == [] || (IsRun(s, steps[..|steps| - 1]) &&
                    Enabled(After(s, steps[..|steps| - 1]), steps[|steps| - 1]))
  }

  ghost function After(s: State, steps: seq<Step>): State
    requires IsRun(s, steps)
    decreases |steps|, 1
  {
    if steps == [] then s else Apply(After(s, steps[..|steps| - 1]), steps[|steps| - 1])
  }

  predicate PlainStep(step: Step) {
    (step.Check? ==> PlainNamespace(step.asked)) && (step.Drop? ==> PlainNamespace(step.id))
  }

  ghost predicate PlainRun(steps: seq<Step>) {
    forall i :: 0 <= i < |steps| ==> PlainStep(steps[i])
  }

  lemma {:induction false} PrefixIsRun(s: State, steps: seq<Step>, n: nat)
    requires IsRun(s, steps) && n <= |steps|
    ensures IsRun(s, steps[..n])
    decreases |steps| - n
  {
    if n == |steps| {
      assert steps[..n] == steps;
    } else {
      PrefixIsRun(s, steps, n + 1);
      assert steps[..n + 1][..n] == steps[..n];
    }
  }

  // ---- Where cache entries come from ------------------------------------------------------

  predicate IsOf(step: Step, q: nat) {
    (step.Check? || step.List? || step.Fill?) && step.p == q
  }

  /** Lookup process `q` takes no step strictly between `lo` and `hi`. */
  ghost predicate Quiet(steps: seq<Step>, q: nat, lo: nat, hi: nat)
    requires hi <= |steps|
  {
    forall i :: lo < i < hi ==> !IsOf(steps[i], q)
  }

  /** A lookup by `q` for `asked` started at step `c` and had taken no further step at `hi`. */
  ghost predicate WasChecked(steps: seq<Step>, q: nat, asked: Id, c: nat, hi: nat)
    requires hi <= |steps|
  {
    c < hi && steps[c] == Check(q, asked) && Quiet(steps, q, c, hi)
  }

  /** It went on with its List at step `l`, which found `content`, and had taken no further step at `hi`. */
  ghost predicate WasListed(s: State, steps: seq<Step>, q: nat, asked: Id, content: Content, c: nat, l: nat, hi: nat)
    requires IsRun(s, steps) && hi <= |steps|
  {
    l < hi && WasChecked(steps, q, asked, c, l) && steps[l] == List(q) && Quiet(steps, q, l, hi) &&
    (PrefixIsRun(s, steps, l); Listed(After(s, steps[..l]).View(), asked) == Some(content))
  }

  /** And its Fill at step `f` wrote this entry. */
  ghost predicate WasFilled(s: State, steps: seq<Step>, q: nat, asked: Id, e: Entry<Content>, c: nat, l: nat, f: nat)
    requires IsRun(s, steps)
  {
    f < |steps| && WasListed(s, steps, q, asked, e.data, c, l, f) && steps[f] == Fill(q) &&
    (PrefixIsRun(s, steps, f); e.expiresAt == After(s, steps[..f]).clock + FIVE_MINUTES)
  }

  lemma ListingLasts(s: State, steps: seq<Step>, n: nat, q: nat, asked: Id, content: Content, c: nat, l: nat, hi: nat)
    requires IsRun(s, steps) && hi <= n <= |steps| && IsRun(s, steps[..n])
    requires WasListed(s, steps[..n], q, asked, content, c, l, hi)
    ensures WasListed(s, steps, q, asked, content, c, l, hi)
  {
    PrefixIsRun(s, steps, l);
    assert steps[..n][..l] == steps[..l];
    assert forall i :: 0 <= i < n ==> steps[..n][i] == steps[i];
  }

  lemma FillingLasts(s: State, steps: seq<Step>, n: nat, q: nat, asked: Id, e: Entry<Content>, c: nat, l: nat, f: nat)
    requires IsRun(s, steps) && n <= |steps| && IsRun(s, steps[..n])
    requires WasFilled(s, steps[..n], q, asked, e, c, l, f)
    ensures WasFilled(s, steps, q, asked, e, c, l, f)
  {
    ListingLasts(s, steps, n, q, asked, e.data, c, l, f);
    PrefixIsRun(s, steps, f);
    assert steps[..n][..f] == steps[..f];
  }

  /** Every lookup in flight has the steps behind it that brought it there. */
  ghost predicate Traced(s: State, steps: seq<Step>, q: nat)
    requires IsRun(s, steps)
  {
    var fl := After(s, steps).flights;
    q in fl ==>
      var asked := fl[q].asked;
      && PlainNamespace(asked)
      && (fl[q].Missed? ==> exists c :: WasChecked(steps, q, asked, c, |steps|))
      && (fl[q].Holding? ==> exists c, l :: WasListed(s, steps, q, asked, fl[q].found, c, l, |steps|))
  }

  lemma OtherStepsKeepTrace(s: State, steps: seq<Step>, n: nat, q: nat)
    requires IsRun(s, steps) && |steps| == n + 1 && Traced(s, steps[..n], q) && !IsOf(steps[n], q)
    ensures Traced(s, steps, q)
  {
    var before, fl := After(s, steps[..n]).flights, After(s, steps).flights;
    if q in fl {
      assert q in before && before[q] == fl[q];
      assert forall i :: 0 <= i < n ==> steps[..n][i] == steps[i];
      var asked := fl[q].asked;
      if fl[q].Missed? {
        var c :| WasChecked(steps[..n], q, asked, c, n);
        assert WasChecked(steps, q, asked, c, n + 1);
      } else {
        var c, l :| WasListed(s, steps[..n], q, asked, fl[q].found, c, l, n);
        ListingLasts(s, steps, n, q, asked, fl[q].found, c, l, n);
        assert WasListed(s, steps, q, asked, fl[q].found, c, l, n + 1);
      }
    }
  }

  lemma OwnStepsMakeTrace(s: State, steps: seq<Step>, n: nat, q: nat)
    requires IsRun(s, steps) && |steps| == n + 1 && Traced(s, steps[..n], q)
    requires IsOf(steps[n], q) && PlainStep(steps[n])
    ensures Traced(s, steps, q)
  {
    var before, fl := After(s, steps[..n]).flights, After(s, steps).flights;
    if q in fl {
      var asked := fl[q].asked;
      if steps[n].Check? {
        assert WasChecked(steps, q, asked, n, n + 1);
      } else {
        assert steps[n] == List(q) && before[q] == Missed(asked);
        var c :| WasChecked(steps[..n], q, asked, c, n);
        assert forall i :: 0 <= i < n ==> steps[..n][i] == steps[i];
        assert WasChecked(steps, q, asked, c, n);
        assert WasListed(s, steps, q, asked, fl[q].found, c, n, n + 1);
      }
    }
  }

  lemma {:induction false} FlightsAreTraced(s: State, steps: seq<Step>, q: nat)
    requires IsRun(s, steps) && PlainRun(steps) && s.flights == map[]
    ensures Traced(s, steps, q)
  {
    if steps == [] {
    } else {
      var n := |steps| - 1;
      assert forall i :: 0 <= i < n ==> steps[..n][i] == steps[i];
      FlightsAreTraced(s, steps[..n], q);
      if IsOf(steps[n], q) {
        OwnStepsMakeTrace(s, steps, n, q);
      } else {
        OtherStepsKeepTrace(s, steps, n, q);
      }
    }
  }

  ghost predicate EntryFilled(s: State, steps: seq<Step>, key: string)
    requires IsRun(s, steps)
  {
    var cache := After(s, steps).cache;
    key in cache ==> exists q, asked, c, l, f :: PlainNamespace(asked) && key == CacheKey(asked)
                       && WasFilled(s, steps, q, asked, cache[key], c, l, f)
  }

  lemma NewEntryIsFilled(s: State, steps: seq<Step>, n: nat, q: nat)
    requires IsRun(s, steps) && |steps| == n + 1 && steps[n] == Fill(q)
    requires Traced(s, steps[..n], q)
    ensures var asked := After(s, steps[..n]).flights[q].asked;
            CacheKey(asked) in After(s, steps).cache && EntryFilled(s, steps, CacheKey(asked))
  {
    var fl := After(s, steps[..n]).flights[q];
    var c, l :| WasListed(s, steps[..n], q, fl.asked, fl.found, c, l, n);
    ListingLasts(s, steps, n, q, fl.asked, fl.found, c, l, n);
    assert WasFilled(s, steps, q, fl.asked, After(s, steps).cache[CacheKey(fl.asked)], c, l, n);
  }

  lemma OldEntryStaysFilled(s: State, steps: seq<Step>, n: nat, key: string)
    requires IsRun(s, steps) && |steps| == n + 1 && EntryFilled(s, steps[..n], key)
    requires key in After(s, steps).cache && key in After(s, steps[..n]).cache
    requires After(s, steps).cache[key] == After(s, steps[..n]).cache[key]
    ensures EntryFilled(s, steps, key)
  {
    var e := After(s, steps).cache[key];
    var q, asked, c, l, f :| PlainNamespace(asked) && key == CacheKey(asked)
      && WasFilled(s, steps[..n], q, asked, e, c, l, f);
    FillingLasts(s, steps, n, q, asked, e, c, l, f);
  }

  lemma OtherStepsKeepEntry(s: State, step: Step, key: string)
    requires Enabled(s, step) && key in Apply(s, step).cache
    requires !(step.Fill? && key == CacheKey(s.flights[step.p].asked))
    ensures key in s.cache && s.cache[key] == Apply(s, step).cache[key]
  {
  }

  lemma {:induction false} EntriesComeFromFills(s: State, steps: seq<Step>, key: string)
    requires IsRun(s, steps) && PlainRun(steps) && s.flights == map[] && s.cache == map[]
    ensures EntryFilled(s, steps, key)
  {
    if steps == [] {
    } else {
      var n := |steps| - 1;
      EntriesComeFromFills(s, steps[..n], key);
      if key in After(s, steps).cache {
        if steps[n].Fill? && key == CacheKey(After(s, steps[..n]).flights[steps[n].p].asked) {
          FlightsAreTraced(s, steps[..n], steps[n].p);
          NewEntryIsFilled(s, steps, n, steps[n].p);
        } else {
          OtherStepsKeepEntry(After(s, steps[..n]), steps[n], key);
          OldEntryStaysFilled(s, steps, n, key);
        }
      }
    }
  }

  lemma {:induction false} ClockOnlyAdvances(s: State, steps: seq<Step>, n: nat)
    requires IsRun(s, steps) && n <= |steps| && IsRun(s, steps[..n])
    ensures After(s, steps[..n]).clock <= After(s, steps).clock
  {
    if n == |steps| {
      assert steps[..n] == steps;
    } else {
      var m := |steps| - 1;
      assert steps[..m][..n] == steps[..n];
      ClockOnlyAdvances(s, steps[..m], n);
    }
  }

  /** Version `k` was the store at some point of the run. */
  ghost predicate WasStore(s: State, steps: seq<Step>, k: nat)
    requires IsRun(s, steps) && k < |After(s, steps).versions|
  {
    exists o: nat :: o <= |steps| && IsRun(s, steps[..o]) && After(s, steps[..o]).Store() == After(s, steps).versions[k]
  }

  lemma VersionsGrow(s: State, step: Step, k: nat)
    requires Enabled(s, step) && k < |Apply(s, step).versions|
    ensures if k < |s.versions| then Apply(s, step).versions[k] == s.versions[k]
            else Apply(s, step).versions[k] == Apply(s, step).Store()
  {
  }

  lemma OldStoreStays(s: State, steps: seq<Step>, n: nat, k: nat)
    requires IsRun(s, steps) && |steps| == n + 1 && k < |After(s, steps[..n]).versions| && WasStore(s, steps[..n], k)
    ensures k < |After(s, steps).versions| && WasStore(s, steps, k)
  {
    var o: nat :| o <= n && IsRun(s, steps[..n][..o]) &&
                  After(s, steps[..n][..o]).Store() == After(s, steps[..n]).versions[k];
    assert steps[..n][..o] == steps[..o];
    VersionsGrow(After(s, steps[..n]), steps[n], k);
  }

  lemma {:induction false} VersionsWereStores(s: State, steps: seq<Step>, k: nat)
    requires IsRun(s, steps) && s.Synced() && s.seen <= k < |After(s, steps).versions|
    ensures WasStore(s, steps, k)
  {
    assert steps[..|steps|] == steps;
    if steps == [] {
    } else {
      var n := |steps| - 1;
      if k < |After(s, steps[..n]).versions| {
        VersionsWereStores(s, steps[..n], k);
        OldStoreStays(s, steps, n, k);
      } else {
        VersionsGrow(After(s, steps[..n]), steps[n], k);
      }
    }
  }

  lemma {:induction false} IndexStaysInRange(s: State, steps: seq<Step>)
    requires IsRun(s, steps) && s.Synced()
    ensures s.seen <= After(s, steps).seen < |After(s, steps).versions|
  {
    if steps == [] {
    } else {
      IndexStaysInRange(s, steps[..|steps| - 1]);
    }
  }

  /** Steps `c`, `l` and `f` are the cache check, the List and the Fill of one lookup for `asked`. */
  ghost predicate OneLookup(steps: seq<Step>, q: nat, asked: Id, c: nat, l: nat, f: nat) {
    && c < l < f < |steps|
    && steps[c] == Check(q, asked) && steps[l] == List(q) && steps[f] == Fill(q)
    && Quiet(steps, q, c, l) && Quiet(steps, q, l, f)
  }

  lemma ViewWasStore(s: State, steps: seq<Step>, l: nat) returns (o: nat)
    requires IsRun(s, steps) && s.Synced() && l <= |steps| && IsRun(s, steps[..l])
    ensures o <= l && IsRun(s, steps[..o]) && After(s, steps[..l]).View() == After(s, steps[..o]).Store()
  {
    var run := steps[..l];
    IndexStaysInRange(s, run);
    VersionsWereStores(s, run, After(s, run).seen);
    o :| o <= l && IsRun(s, run[..o]) && After(s, run[..o]).Store() == After(s, run).versions[After(s, run).seen];
    assert run[..o] == steps[..o];
  }

  /** The store held `content` for `asked` at step `o`; that is what the index showed at the List of
      the lookup `c`, `l`, `f`, and its Fill was at most five minutes before the end of the run. */
  ghost predicate Explains(s: State, steps: seq<Step>, asked: Id, content: Content,
                           q: nat, c: nat, l: nat, f: nat, o: nat)
    requires IsRun(s, steps)
  {
    && OneLookup(steps, q, asked, c, l, f) && o <= l
    && IsRun(s, steps[..o]) && IsRun(s, steps[..l]) && IsRun(s, steps[..f])
    && After(s, steps[..l]).View() == After(s, steps[..o]).Store()
    && asked in After(s, steps[..o]).Store()
    && After(s, steps[..o]).Store()[asked] == content
    && After(s, steps[..f]).clock <= After(s, steps).clock <= After(s, steps[..f]).clock + 5 * 60 * 1_000_000_000
  }

  lemma FillExplains(s: State, steps: seq<Step>, asked: Id, e: Entry<Content>, q: nat, c: nat, l: nat, f: nat)
    requires IsRun(s, steps) && s.Synced() && asked.namespace != ""
    requires WasFilled(s, steps, q, asked, e, c, l, f) && !IsExpired(e, After(s, steps).clock)
    ensures exists o: nat :: Explains(s, steps, asked, e.data, q, c, l, f, o)
  {
    PrefixIsRun(s, steps, l);
    PrefixIsRun(s, steps, f);
    ClockOnlyAdvances(s, steps, f);
    var o := ViewWasStore(s, steps, l);
    assert Explains(s, steps, asked, e.data, q, c, l, f, o);
  }

  /** Bounded staleness: in every interleaving, a hit returns what the store held for exactly this
      namespace and name when it was as the index showed it at the List of an earlier lookup for it,
      whose Fill was at most five minutes ago. */
  lemma HitsAreBoundedlyStale(s: State, steps: seq<Step>, asked: Id)
    requires IsRun(s, steps) && PlainRun(steps) && s.flights == map[] && s.cache == map[] && s.Synced()
    requires PlainNamespace(asked) && asked.namespace != ""
    requires Answer(After(s, steps), asked).Some?
    ensures exists q: nat, c: nat, l: nat, f: nat, o: nat ::
              Explains(s, steps, asked, Answer(After(s, steps), asked).value, q, c, l, f, o)
  {
    var key, now := CacheKey(asked), After(s, steps);
    EntriesComeFromFills(s, steps, key);
    var q, a, c, l, f :| PlainNamespace(a) && key == CacheKey(a) && WasFilled(s, steps, q, a, now.cache[key], c, l, f);
    CacheKeyIsInjective(a, asked);
    FillExplains(s, steps, asked, now.cache[key], q, c, l, f);
  }

  // ---- Freshness after an invalidate ------------------------------------------------------

  predicate Current(s: State, id: Id, content: Content) {
    id in s.Store() && s.Store()[id] == content
  }

  /** A lookup in flight holds an outdated List result for `id`. */
  ghost predicate StaleFlight(s: State, id: Id, q: nat) {
    q in s.flights && s.flights[q].Holding? && s.flights[q].asked == id && !Current(s, id, s.flights[q].found)
  }

  /** The index shows, or is still to show, an outdated `id`. */
  ghost predicate StaleVersion(s: State, id: Id, k: nat) {
    s.seen <= k < |s.versions| && id in s.versions[k] && !Current(s, id, s.versions[k][id])
  }

  /** Neither the cache nor a lookup in flight nor the index holds anything outdated about `id`. */
  ghost predicate Coherent(s: State, id: Id) {
    && (CacheKey(id) in s.cache ==> Current(s, id, s.cache[CacheKey(id)].data))
    && (forall q :: !StaleFlight(s, id, q))
    && (forall k :: !StaleVersion(s, id, k))
  }

  ghost predicate PlainFlights(s: State) {
    forall q :: q in s.flights ==> PlainNamespace(s.flights[q].asked)
  }

  predicate Touches(step: Step, id: Id) {
    (step.Write? && step.id == id) || (step.Remove? && step.id == id)
  }

  lemma UntouchedIsCurrent(s: State, step: Step, id: Id, content: Content)
    requires Enabled(s, step) && !Touches(step, id)
    ensures Current(Apply(s, step), id, content) <==> Current(s, id, content)
  {
  }

  lemma IndexStaysCoherent(s: State, step: Step, id: Id, k: nat)
    requires Enabled(s, step) && !Touches(step, id)
    requires forall k :: !StaleVersion(s, id, k)
    ensures !StaleVersion(Apply(s, step), id, k)
  {
    var s' := Apply(s, step);
    if s'.seen <= k < |s'.versions| && id in s'.versions[k] {
      if k < |s.versions| {
        assert !StaleVersion(s, id, k);
        assert s'.versions[k] == s.versions[k];
        UntouchedIsCurrent(s, step, id, s.versions[k][id]);
      } else {
        assert s'.versions[k] == s'.Store();
      }
    }
  }

  lemma FlightsStayCoherent(s: State, step: Step, id: Id, q: nat)
    requires Enabled(s, step) && !Touches(step, id) && id.namespace != ""
    requires !StaleFlight(s, id, q) && forall k :: !StaleVersion(s, id, k)
    ensures !StaleFlight(Apply(s, step), id, q)
  {
    var s' := Apply(s, step);
    if q in s'.flights && s'.flights[q].Holding? && s'.flights[q].asked == id {
      var found := s'.flights[q].found;
      UntouchedIsCurrent(s, step, id, found);
      if step == List(q) {
        assert Listed(s.View(), id) == Some(found);
        assert !StaleVersion(s, id, s.seen);
      }
    }
  }

  /** Coherence survives every step but a write of `id` itself. */
  lemma CoherenceLasts(s: State, step: Step, id: Id)
    requires Enabled(s, step) && PlainFlights(s) && PlainNamespace(id) && id.namespace != ""
    requires Coherent(s, id) && !Touches(step, id)
    ensures Coherent(Apply(s, step), id)
  {
    var s', key := Apply(s, step), CacheKey(id);
    if key in s'.cache {
      UntouchedIsCurrent(s, step, id, s'.cache[key].data);
      if step.Fill? && CacheKey(s.flights[step.p].asked) == key {
        CacheKeyIsInjective(s.flights[step.p].asked, id);
        assert !StaleFlight(s, id, step.p);
      }
    }
    forall q
      ensures !StaleFlight(s', id, q)
    {
      FlightsStayCoherent(s, step, id, q);
    }
    forall k
      ensures !StaleVersion(s', id, k)
    {
      IndexStaysCoherent(s, step, id, k);
    }
  }

  lemma {:induction false} PlainFlightsLast(s: State, steps: seq<Step>)
    requires IsRun(s, steps) && PlainRun(steps) && PlainFlights(s)
    ensures PlainFlights(After(s, steps))
  {
    if steps == [] {
    } else {
      var n := |steps| - 1;
      assert forall i :: 0 <= i < n ==> steps[..n][i] == steps[i];
      PlainFlightsLast(s, steps[..n]);
    }
  }

  ghost predicate NobodyTouches(steps: seq<Step>, id: Id) {
    forall i :: 0 <= i < |steps| ==> !Touches(steps[i], id)
  }

  lemma {:induction false} CoherentRun(s: State, steps: seq<Step>, id: Id, content: Content)
    requires IsRun(s, steps) && PlainRun(steps) && PlainFlights(s)
    requires PlainNamespace(id) && id.namespace != "" && Coherent(s, id) && NobodyTouches(steps, id)
    ensures Coherent(After(s, steps), id)
    ensures Current(After(s, steps), id, content) <==> Current(s, id, content)
  {
    if steps == [] {
    } else {
      var n := |steps| - 1;
      assert forall i :: 0 <= i < n ==> steps[..n][i] == steps[i];
      CoherentRun(s, steps[..n], id, content);
      PlainFlightsLast(s, steps[..n]);
      CoherenceLasts(After(s, steps[..n]), steps[n], id);
      UntouchedIsCurrent(After(s, steps[..n]), steps[n], id, content);
    }
  }

  ghost predicate FreshAnswer(s: State, steps: seq<Step>, id: Id)
    requires IsRun(s, steps)
  {
    var a := Answer(After(s, steps), id);
    a.Some? ==> Current(s, id, a.value)
  }

  /** However the run goes on, no cache answer for `id` differs from what the store holds now,
      as long as nobody writes `id`. */
  ghost predicate FreshFromHere(s: State, id: Id) {
    forall steps :: IsRun(s, steps) && PlainRun(steps) && NobodyTouches(steps, id) ==> FreshAnswer(s, steps, id)
  }

  lemma {:induction false} StepFirst(s: State, step: Step, steps: seq<Step>)
    requires Enabled(s, step) && IsRun(Apply(s, step), steps)
    ensures IsRun(s, [step] + steps) && After(s, [step] + steps) == After(Apply(s, step), steps)
  {
    var run := [step] + steps;
    if steps == [] {
      assert run[..|run| - 1] == [] && run == [step];
      assert IsRun(s, []) && After(s, []) == s;
    } else {
      var n := |steps| - 1;
      assert run[..|run| - 1] == [step] + steps[..n];
      StepFirst(s, step, steps[..n]);
    }
  }

  /** The index can always catch up with the store, whatever else happens. */
  lemma {:induction false} IndexCanCatchUp(s: State) returns (steps: seq<Step>)
    requires s.seen < |s.versions|
    ensures IsRun(s, steps) && After(s, steps).Synced() && After(s, steps).Store() == s.Store()
    ensures After(s, steps).cache == s.cache && After(s, steps).flights == s.flights
    decreases |s.versions| - s.seen
  {
    if s.Synced() {
      steps := [];
    } else {
      var rest := IndexCanCatchUp(Apply(s, Observe));
      StepFirst(s, Observe, rest);
      steps := [Observe] + rest;
    }
  }

  /** Freshness is a promise about all continuations, so it survives any first step of one. */
  lemma FreshAfterStep(s: State, id: Id, step: Step)
    requires FreshFromHere(s, id) && Enabled(s, step) && PlainStep(step) && !Touches(step, id)
    ensures FreshFromHere(Apply(s, step), id)
  {
    var s' := Apply(s, step);
    forall steps | IsRun(s', steps) && PlainRun(steps) && NobodyTouches(steps, id)
      ensures FreshAnswer(s', steps, id)
    {
      StepFirst(s, step, steps);
      assert FreshAnswer(s, [step] + steps, id);
      var a := Answer(After(s', steps), id);
      if a.Some? {
        UntouchedIsCurrent(s, step, id, a.value);
      }
    }
  }

  lemma StaleFlightIsSeen(s: State, id: Id, q: nat)
    requires StaleFlight(s, id, q)
    ensures !FreshFromHere(s, id)
  {
    var s' := Apply(s, Fill(q));
    assert Answer(s', id) == Some(s.flights[q].found);
    assert IsRun(s', []) && !FreshAnswer(s', [], id);
    if FreshFromHere(s, id) {
      FreshAfterStep(s, id, Fill(q));
    }
  }

  lemma {:induction false} UnusedProcess(used: set<nat>) returns (p: nat)
    ensures forall q :: q in used ==> q < p
  {
    if used == {} {
      p := 0;
    } else {
      var q :| q in used;
      var r := UnusedProcess(used - {q});
      assert forall o :: o in used ==> o == q || o in used - {q};
      p := if q < r then r else q + 1;
    }
  }

  /** A lookup that starts now lists what the index shows; if that is outdated, it becomes a stale
      flight. */
  lemma StaleViewIsSeen(s: State, id: Id)
    requires StaleVersion(s, id, s.seen) && CacheKey(id) !in s.cache && PlainNamespace(id) && id.namespace != ""
    ensures !FreshFromHere(s, id)
  {
    var p := UnusedProcess(s.flights.Keys);
    var checked := Apply(s, Check(p, id));
    var listed := Apply(checked, List(p));
    assert listed.flights[p] == Holding(id, s.versions[s.seen][id]);
    assert StaleFlight(listed, id, p);
    StaleFlightIsSeen(listed, id, p);
    if FreshFromHere(s, id) {
      FreshAfterStep(s, id, Check(p, id));
      FreshAfterStep(checked, id, List(p));
    }
  }

  lemma {:induction false} StaleVersionIsSeen(s: State, id: Id, k: nat)
    requires StaleVersion(s, id, k) && CacheKey(id) !in s.cache && PlainNamespace(id) && id.namespace != ""
    ensures !FreshFromHere(s, id)
    decreases k - s.seen
  {
    if k == s.seen {
      StaleViewIsSeen(s, id);
    } else {
      StaleVersionIsSeen(Apply(s, Observe), id, k);
      if FreshFromHere(s, id) {
        FreshAfterStep(s, id, Observe);
      }
    }
  }

  /** After an invalidate every later answer is current, in every continuation, exactly if no lookup
      in flight holds an outdated result and the index neither shows nor is still to show one. */
  lemma InvalidateRefreshesIff(s: State, id: Id)
    requires PlainFlights(s) && PlainNamespace(id) && id.namespace != ""
    ensures FreshFromHere(Apply(s, Drop(id)), id) <==>
              (forall q :: !StaleFlight(s, id, q)) && (forall k :: !StaleVersion(s, id, k))
  {
    var s' := Apply(s, Drop(id));
    assert forall q :: StaleFlight(s', id, q) <==> StaleFlight(s, id, q);
    assert forall k :: StaleVersion(s', id, k) <==> StaleVersion(s, id, k);
    if q :| StaleFlight(s, id, q) {
      StaleFlightIsSeen(s', id, q);
    } else if k :| StaleVersion(s, id, k) {
      StaleVersionIsSeen(s', id, k);
    } else {
      forall steps | IsRun(s', steps) && PlainRun(steps) && NobodyTouches(steps, id)
        ensures FreshAnswer(s', steps, id)
      {
        var a := Answer(After(s', steps), id);
        if a.Some? {
          CoherentRun(s', steps, id, a.value);
        }
      }
    }
  }

  /** In particular, with the index up to date and no lookup of `id` in flight, a lookup after the
      invalidate either misses or returns the stored object. */
  lemma PatchedObjectIsSeen(s: State, id: Id, patched: Content, steps: seq<Step>)
    requires PlainFlights(s) && PlainNamespace(id) && id.namespace != ""
    requires s.Synced() && Current(s, id, patched) && forall q :: q in s.flights ==> s.flights[q].asked != id
    requires IsRun(Apply(s, Drop(id)), steps) && PlainRun(steps) && NobodyTouches(steps, id)
    ensures var a := Answer(After(Apply(s, Drop(id)), steps), id);
            a == None || a == Some(patched)
  {
    InvalidateRefreshesIff(s, id);
    assert forall q :: !StaleFlight(s, id, q);
    assert forall k :: !StaleVersion(s, id, k);
    assert FreshAnswer(Apply(s, Drop(id)), steps, id);
  }

  /** Reconcile invalidates right after its patch, before the watch event of the patch can have
      reached the index: then a lookup can still cache the object as it was, even with none in
      flight. */
  lemma PatchCanBeMissed(s: State, id: Id, patched: Content)
    requires PlainFlights(s) && PlainNamespace(id) && id.namespace != ""
    requires s.Synced() && id in s.Store() && s.Store()[id] != patched
    ensures !FreshFromHere(Apply(Apply(s, Write(id, patched)), Drop(id)), id)
  {
    var written := Apply(s, Write(id, patched));
    InvalidateRefreshesIff(written, id);
    assert StaleVersion(written, id, s.seen);
  }
}
