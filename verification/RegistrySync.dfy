/**
 Listing a registry and accounting for its servers: listServersWithRateLimit and SyncRepository of
 pkg/registry/client.go, and the status that the registry controller fills from the result.
 */
module RegistrySync {
  import opened GitHubRetry
  import opened Strings
  import opened Wrappers

  datatype Item = Item(name: string, path: string, isDir: bool)

  datatype ServerInfo = ServerInfo(name: string, path: string)

  /** What one list request brings back. */
  datatype Page = Unreached(message: string) | BadStatus(status: int, reset: Option<int>, retryAfter: Option<int>)
                | Undecodable(message: string) | Listing(items: seq<Item>)

  /** The error that the closure hands to the retrier; it is wrapped, so only its text can show
      that it came from the network. */
  function ToAttempt(page: Page, baseUrl: string): Attempt {
    match page
    case Unreached(m) => Failure("failed to execute request: " + m, false, None)
    case BadStatus(status, reset, retryAfter) =>
      Failure(if status == 404 then "PathNotFound: " + baseUrl else "GitHub API returned status",
              false, Some(Response(status, reset, retryAfter)))
    case Undecodable(m) => Failure("failed to decode response: " + m, false, Some(Response(200, None, None)))
    case Listing(_) => Success
  }

  function Directories(items: seq<Item>): seq<ServerInfo> {
    if items == [] then []
    else
      var n := |items| - 1;
      Directories(items[..n]) + if items[n].isDir then [ServerInfo(items[n].name, items[n].path)] else []
  }

  /** Exactly the directories are listed, in the order of the page. */
  lemma DirectoriesItemByItem(before: seq<Item>, item: Item)
    ensures Directories([]) == []
    ensures Directories(before + [item]) ==
            if item.isDir then Directories(before) + [ServerInfo(item.name, item.path)] else Directories(before)
  {
    assert (before + [item])[..|before|] == before;
  }

  lemma ListingEndsTheLoop(c: Config, pages: nat -> Page, baseUrl: string, w: World, r: Result,
                           calls: nat, sleeps: seq<int>)
    requires c.maxRetries >= 0 && Trace(c, w, r, calls, sleeps)
    requires forall i: nat :: w.attempt(i) == ToAttempt(pages(i), baseUrl)
    ensures forall i: nat :: i < calls - 1 ==> !pages(i).Listing?
    ensures r == Succeeded <==> pages(calls - 1).Listing?
    ensures calls <= 1 + c.maxRetries
  {
    forall i: nat | i < calls - 1
      ensures !pages(i).Listing?
    {
      assert Verdict(c, w, i) == None;
      assert w.attempt(i) == ToAttempt(pages(i), baseUrl);
    }
    assert w.attempt(calls - 1) == ToAttempt(pages(calls - 1), baseUrl);
    if calls > 1 {
      BelowMaxRetries(c, w, r, calls, sleeps, calls - 2);
    }
  }

  method AppendDirectories(before: seq<ServerInfo>, items: seq<Item>) returns (servers: seq<ServerInfo>)
    ensures servers == before + Directories(items)
  {
    servers := before;
    for i := 0 to |items|
      invariant servers == before + Directories(items[..i])
    {
      assert items[..i + 1][..i] == items[..i];
      if items[i].isDir {
        servers := servers + [ServerInfo(items[i].name, items[i].path)];
      }
    }
    assert items[..|items|] == items;
  }

  /** What the closure has appended after all its calls. */
  method AppendAll(pages: nat -> Page, calls: nat) returns (servers: seq<ServerInfo>)
    requires calls >= 1 && forall i: nat :: i < calls - 1 ==> !pages(i).Listing?
    ensures servers == if pages(calls - 1).Listing? then Directories(pages(calls - 1).items) else []
  {
    servers := [];
    for i := 0 to calls
      invariant servers == if i == calls && pages(calls - 1).Listing? then Directories(pages(calls - 1).items) else []
    {
      if pages(i).Listing? {
        servers := AppendDirectories(servers, pages(i).items);
      }
    }
  }

  /** The closure appends to a slice captured outside of it, so its effects add up over the calls. */
  method ListServers(c: Config, pages: nat -> Page, baseUrl: string, now: nat -> int, jitter: nat -> real,
                     cancelled: nat -> bool) returns (r: Result, servers: seq<ServerInfo>)
    requires c.maxRetries >= 0
    ensures r == Succeeded ==>
              exists i: nat :: i <= c.maxRetries && pages(i).Listing? && servers == Directories(pages(i).items)
                && forall j: nat :: j < i ==> !pages(j).Listing?
    ensures r != Succeeded ==> servers == []
  {
    var w := World((i: nat) => ToAttempt(pages(i), baseUrl), now, jitter, cancelled);
    var calls, sleeps;
    r, calls, sleeps := DoWithGitHubRetry(c, w);
    ListingEndsTheLoop(c, pages, baseUrl, w, r, calls, sleeps);
    servers := AppendAll(pages, calls);
    if r != Succeeded {
      return r, [];
    }
  }

  lemma CharsAreContained(s: string, part: string)
    requires Contains(s, part)
    ensures forall k :: 0 <= k < |part| ==> part[k] in s
  {
    var i :| 0 <= i <= |s| && StandsAt(s, part, i);
    forall k | 0 <= k < |part|
      ensures part[k] in s
    {
      assert s[i + k] == s[i..i + |part|][k];
    }
  }

  lemma MissingChar(s: string, part: string, k: nat)
    requires k < |part| && part[k] !in s
    ensures !Contains(s, part)
  {
    if Contains(s, part) {
      CharsAreContained(s, part);
      assert false;
    }
  }

  lemma StatusTextHasNo(text: string)
    requires text == "github api returned status"
    ensures 'c' !in text && 'o' !in text && 'w' !in text
    ensures forall i :: 0 <= i < |text| - 1 && text[i] == 'd' ==> text[i + 1] == ' '
  {
  }

  lemma StatusTextHasNoDns(text: string)
    requires forall i :: 0 <= i < |text| - 1 && text[i] == 'd' ==> text[i + 1] == ' '
    ensures !Contains(text, "dns")
  {
    if i :| 0 <= i <= |text| && StandsAt(text, "dns", i) {
      var part := text[i..i + 3];
      assert text[i] == part[0] && text[i + 1] == part[1];
    }
  }

  lemma StatusTextIsPlain(message: string, text: string)
    requires text == ToLower(message)
    requires 'c' !in text && 'o' !in text && 'w' !in text
    requires forall i :: 0 <= i < |text| - 1 && text[i] == 'd' ==> text[i + 1] == ' '
    ensures !LooksLikeNetwork(message)
  {
    SevenWordsDecide(message);
    MissingChar(text, "connection refused", 0);
    MissingChar(text, "connection reset", 0);
    MissingChar(text, "network is unreachable", 3);
    MissingChar(text, "no such host", 1);
    MissingChar(text, "timeout", 4);
    MissingChar(text, "tcp", 1);
    StatusTextHasNoDns(text);
  }

  lemma StatusIsNoNetworkWord()
    ensures !LooksLikeNetwork("GitHub API returned status")
  {
    var message := "GitHub API returned status";
    assert ToLower(message) == "github api returned status";
    StatusTextHasNo(ToLower(message));
    StatusTextIsPlain(message, ToLower(message));
  }

  /** What the retrier sees: a request that failed is a network error only by the words of its text, an answer
      that cannot be decoded likewise, and any status but 404 is taken as it is. */
  lemma PagesAreClassified(message: string, baseUrl: string, status: int, reset: Option<int>, retryAfter: Option<int>)
    ensures Classify(ToAttempt(Page.Unreached(message), baseUrl)).kind ==
            if LooksLikeNetwork("failed to execute request: " + message) then Network else General
    ensures Classify(ToAttempt(Undecodable(message), baseUrl)).kind ==
            if LooksLikeNetwork("failed to decode response: " + message) then Network else General
    ensures Classify(ToAttempt(Undecodable(message), baseUrl)).status in {0, 200}
    ensures var e := Classify(ToAttempt(BadStatus(status, reset, retryAfter), baseUrl));
            status != 404 ==>
              && e.status == status
              && e.kind == (if status in {403, 429} then RateLimit else if status == 401 then Auth else General)
              && (e.kind == RateLimit ==> e.reset == reset && e.retryAfter == retryAfter.GetOr(0))
              && (e.kind == General ==> e.message == "GitHub API returned status")
  {
    StatusIsNoNetworkWord();
  }

  /** A 404 on the listing is final exactly if the URL does not read like a network problem. */
  lemma MissingPathIsFinalIff(c: Config, baseUrl: string, reset: Option<int>, retryAfter: Option<int>,
                              attempt: nat, now: int, u: real)
    requires attempt < c.networkMaxRetries
    ensures ShouldRetry(c, Classify(ToAttempt(BadStatus(404, reset, retryAfter), baseUrl)), attempt, now, u).None? <==>
              !LooksLikeNetwork("PathNotFound: " + baseUrl)
  {
  }

  /** So it is retried if any part of the URL, in whatever case, spells a network problem. */
  lemma SpelledProblemIsRetried(before: string, part: string, after: string, pattern: string,
                                reset: Option<int>, retryAfter: Option<int>)
    requires pattern in NETWORK_PATTERNS && ToLower(part) == pattern
    ensures Classify(ToAttempt(BadStatus(404, reset, retryAfter), before + part + after)).kind == Network
  {
    var head := "PathNotFound: " + before;
    var message := "PathNotFound: " + (before + part + after);
    assert message == head + part + after;
    var lower := ToLower(message);
    assert lower[|head|..|head| + |pattern|] == ToLower(part);
    assert StandsAt(lower, pattern, |head|);
    assert Contains(lower, pattern);
  }

  /** Two such registries: one is called "dns", the other has a path that becomes "timeout" only
      because a dotted capital I is lower-cased to an ASCII letter. */
  lemma MissingRegistryTakenForNetwork(reset: Option<int>, retryAfter: Option<int>)
    ensures var dns := "https://api.github.com/repos/o/" + "dns" + "/contents/servers";
            Classify(ToAttempt(BadStatus(404, reset, retryAfter), dns)).kind == Network
    ensures var timeout := "https://api.github.com/repos/o/r/contents/" + "t\U{130}meout" + "";
            Classify(ToAttempt(BadStatus(404, reset, retryAfter), timeout)).kind == Network
  {
    assert NETWORK_PATTERNS[6] == "dns" && NETWORK_PATTERNS[5] == "timeout";
    assert ToLower("dns") == "dns" && ToLower("t\U{130}meout") == "timeout";
    SpelledProblemIsRetried("https://api.github.com/repos/o/", "dns", "/contents/servers", "dns", reset, retryAfter);
    SpelledProblemIsRetried("https://api.github.com/repos/o/r/contents/", "t\U{130}meout", "", "timeout",
                            reset, retryAfter);
  }

  // ---- Accounting -------------------------------------------------------------------------

  datatype Spec = Spec(title: string, version: string, digest: string)

  /** Fetching one server.yaml: a specification, an error, or 404, which skips the server. */
  datatype Fetch = Fetched(spec: Spec) | FetchError | Absent

  function SpecsOf(servers: seq<ServerInfo>, fetch: nat -> Fetch): map<string, Spec> {
    if servers == [] then map[]
    else
      var n := |servers| - 1;
      var earlier := SpecsOf(servers[..n], fetch);
      if fetch(n).Fetched? then earlier[servers[n].name := fetch(n).spec] else earlier
  }

  /** The names of the servers whose fetch ended in a given way, in listing order. */
  function NamesWhere(servers: seq<ServerInfo>, fetch: nat -> Fetch, which: Fetch -> bool): seq<string> {
    if servers == [] then []
    else
      var n := |servers| - 1;
      NamesWhere(servers[..n], fetch, which) + if which(fetch(n)) then [servers[n].name] else []
  }

  predicate IsFetched(f: Fetch) { f.Fetched? }
  predicate IsError(f: Fetch) { f.FetchError? }
  predicate IsAbsent(f: Fetch) { f.Absent? }

  /** The first digest that is not empty. */
  function FirstDigest(servers: seq<ServerInfo>, fetch: nat -> Fetch): string {
    if servers == [] then ""
    else
      var n := |servers| - 1;
      var earlier := FirstDigest(servers[..n], fetch);
      if earlier == "" && fetch(n).Fetched? then fetch(n).spec.digest else earlier
  }

  /** The revision is the first digest that is not empty, or empty if there is none. */
  lemma {:induction false} RevisionIsTheFirstDigest(servers: seq<ServerInfo>, fetch: nat -> Fetch)
    ensures var revision := FirstDigest(servers, fetch);
            if revision == "" then forall i :: 0 <= i < |servers| && fetch(i).Fetched? ==> fetch(i).spec.digest == ""
            else exists i :: 0 <= i < |servers| && fetch(i).Fetched? && fetch(i).spec.digest == revision &&
                             forall j :: 0 <= j < i && fetch(j).Fetched? ==> fetch(j).spec.digest == ""
  {
    if servers == [] {
    } else {
      RevisionIsTheFirstDigest(servers[..|servers| - 1], fetch);
    }
  }

  datatype SyncResult = SyncResult(servers: seq<ServerInfo>, specs: map<string, Spec>, observedSha: string,
                                   count: nat, errors: seq<string>)

  method SyncRepository(servers: seq<ServerInfo>, fetch: nat -> Fetch) returns (result: SyncResult)
    ensures result.servers == servers
    ensures result.specs == SpecsOf(servers, fetch)
    ensures result.errors == NamesWhere(servers, fetch, IsError)
    ensures result.observedSha == FirstDigest(servers, fetch)
    ensures result.count == |result.specs|
  {
    var specs: map<string, Spec> := map[];
    var errors: seq<string> := [];
    var sha := "";
    for i := 0 to |servers|
      invariant specs == SpecsOf(servers[..i], fetch)
      invariant errors == NamesWhere(servers[..i], fetch, IsError)
      invariant sha == FirstDigest(servers[..i], fetch)
    {
      assert servers[..i + 1][..i] == servers[..i];
      match fetch(i)
      case FetchError =>
        errors := errors + [servers[i].name];
      case Absent =>
      case Fetched(spec) =>
        specs := specs[servers[i].name := spec];
        if sha == "" && spec.digest != "" {
          sha := spec.digest;
        }
    }
    assert servers[..|servers|] == servers;
    result := SyncResult(servers, specs, sha, |specs|, errors);
  }

  /** The controller lists in the status the servers that have a specification. */
  function StatusServers(servers: seq<ServerInfo>, specs: map<string, Spec>): seq<string> {
    if servers == [] then []
    else
      var n := |servers| - 1;
      StatusServers(servers[..n], specs) + if servers[n].name in specs then [servers[n].name] else []
  }

  datatype RegistryStatus = RegistryStatus(discovered: nat, servers: seq<string>, revision: string, errors: seq<string>)

  method PopulateStatus(result: SyncResult, cacheErrors: seq<string>) returns (status: RegistryStatus)
    ensures status.discovered == result.count && status.revision == result.observedSha
    ensures status.servers == StatusServers(result.servers, result.specs)
    ensures |status.errors| <= 10
    ensures status.errors <= result.errors + cacheErrors
    ensures |result.errors + cacheErrors| <= 10 ==> status.errors == result.errors + cacheErrors
  {
    var names: seq<string> := [];
    for i := 0 to |result.servers|
      invariant names == StatusServers(result.servers[..i], result.specs)
    {
      assert result.servers[..i + 1][..i] == result.servers[..i];
      if result.servers[i].name in result.specs {
        names := names + [result.servers[i].name];
      }
    }
    assert result.servers[..|result.servers|] == result.servers;
    var all := result.errors + cacheErrors;
    if |all| > 10 {
      all := all[..10];
    }
    status := RegistryStatus(result.count, names, result.observedSha, all);
  }

  ghost predicate DistinctNames(s: seq<string>) {
    forall i, j :: 0 <= i < j < |s| ==> s[i] != s[j]
  }

  function NamesOf(servers: seq<ServerInfo>): seq<string> {
    seq(|servers|, i requires 0 <= i < |servers| => servers[i].name)
  }

  function AsSet(s: seq<string>): set<string> {
    set x | x in s
  }

  lemma DistinctGrows(s: seq<string>, x: string)
    ensures DistinctNames(s + [x]) <==> DistinctNames(s) && x !in s
  {
    var t := s + [x];
    assert forall i :: 0 <= i < |s| ==> t[i] == s[i];
    assert t[|s|] == x;
    if DistinctNames(t) {
      assert forall i, j :: 0 <= i < j < |s| ==> t[i] != t[j];
    }
  }

  lemma NamesGrow(servers: seq<ServerInfo>)
    requires servers != []
    ensures var n := |servers| - 1;
            && NamesOf(servers) == NamesOf(servers[..n]) + [servers[n].name]
            && (DistinctNames(NamesOf(servers)) ==>
                  DistinctNames(NamesOf(servers[..n])) && servers[n].name !in NamesOf(servers[..n]))
  {
    var n := |servers| - 1;
    assert NamesOf(servers) == NamesOf(servers[..n]) + [servers[n].name];
    DistinctGrows(NamesOf(servers[..n]), servers[n].name);
  }

  lemma {:induction false} DistinctIffAsManyNames(s: seq<string>)
    ensures |AsSet(s)| <= |s|
    ensures DistinctNames(s) <==> |AsSet(s)| == |s|
  {
    if s == [] {
    } else {
      var n := |s| - 1;
      DistinctIffAsManyNames(s[..n]);
      assert AsSet(s) == AsSet(s[..n]) + {s[n]};
      if s[n] in s[..n] {
        assert AsSet(s) == AsSet(s[..n]);
        var i :| 0 <= i < n && s[i] == s[n];
        assert !DistinctNames(s);
      } else {
        assert |AsSet(s)| == |AsSet(s[..n])| + 1;
        assert DistinctNames(s) <==> DistinctNames(s[..n]);
      }
    }
  }

  lemma {:induction false} SpecsAreOfFetched(servers: seq<ServerInfo>, fetch: nat -> Fetch)
    ensures SpecsOf(servers, fetch).Keys == AsSet(NamesWhere(servers, fetch, IsFetched))
  {
    if servers == [] {
    } else {
      var n := |servers| - 1;
      SpecsAreOfFetched(servers[..n], fetch);
    }
  }

  lemma {:induction false} StatusListsListed(servers: seq<ServerInfo>, specs: map<string, Spec>)
    ensures forall x :: x in StatusServers(servers, specs) <==> x in specs && x in NamesOf(servers)
  {
    if servers == [] {
    } else {
      var n := |servers| - 1;
      StatusListsListed(servers[..n], specs);
      assert NamesOf(servers) == NamesOf(servers[..n]) + [servers[n].name];
    }
  }

  lemma StatusListsSpecs(servers: seq<ServerInfo>, specs: map<string, Spec>)
    requires specs.Keys <= AsSet(NamesOf(servers))
    ensures AsSet(StatusServers(servers, specs)) == specs.Keys
  {
    StatusListsListed(servers, specs);
    forall x | x in specs
      ensures x in StatusServers(servers, specs)
    {
      assert x in NamesOf(servers);
    }
  }

  lemma {:induction false} FetchedAreListed(servers: seq<ServerInfo>, fetch: nat -> Fetch, which: Fetch -> bool)
    ensures forall x :: x in NamesWhere(servers, fetch, which) ==> x in NamesOf(servers)
    ensures DistinctNames(NamesOf(servers)) ==> DistinctNames(NamesWhere(servers, fetch, which))
  {
    if servers == [] {
    } else {
      var n := |servers| - 1;
      FetchedAreListed(servers[..n], fetch, which);
      NamesGrow(servers);
      DistinctGrows(NamesWhere(servers[..n], fetch, which), servers[n].name);
    }
  }

  lemma {:induction false} SpecsComeFromFetches(servers: seq<ServerInfo>, fetch: nat -> Fetch, name: string)
    ensures name in SpecsOf(servers, fetch) <==>
              exists i :: 0 <= i < |servers| && servers[i].name == name && fetch(i).Fetched?
  {
    if servers == [] {
    } else {
      var n := |servers| - 1;
      SpecsComeFromFetches(servers[..n], fetch, name);
      assert forall i :: 0 <= i < n ==> servers[..n][i] == servers[i];
    }
  }

  /** Of a name that was fetched more than once, the last specification counts. */
  lemma {:induction false} LastFetchCounts(servers: seq<ServerInfo>, fetch: nat -> Fetch, i: nat)
    requires i < |servers| && fetch(i).Fetched?
    requires forall j :: i < j < |servers| && servers[j].name == servers[i].name ==> !fetch(j).Fetched?
    ensures servers[i].name in SpecsOf(servers, fetch) && SpecsOf(servers, fetch)[servers[i].name] == fetch(i).spec
  {
    var n := |servers| - 1;
    if i == n {
    } else {
      LastFetchCounts(servers[..n], fetch, i);
    }
  }

  /** Names come in listing order: each one stands after as many as there were before it. */
  lemma {:induction false} NamesStandInOrder(servers: seq<ServerInfo>, fetch: nat -> Fetch, which: Fetch -> bool,
                                             i: nat)
    requires i < |servers| && which(fetch(i))
    ensures var names, at := NamesWhere(servers, fetch, which), |NamesWhere(servers[..i], fetch, which)|;
            at < |names| && names[at] == servers[i].name
  {
    var n := |servers| - 1;
    if i == n {
    } else {
      NamesStandInOrder(servers[..n], fetch, which, i);
      assert servers[..n][..i] == servers[..i];
    }
  }

  /** So do the servers in the status. */
  lemma {:induction false} StatusStandsInOrder(servers: seq<ServerInfo>, specs: map<string, Spec>, i: nat)
    requires i < |servers| && servers[i].name in specs
    ensures var names, at := StatusServers(servers, specs), |StatusServers(servers[..i], specs)|;
            at < |names| && names[at] == servers[i].name
  {
    var n := |servers| - 1;
    if i == n {
    } else {
      StatusStandsInOrder(servers[..n], specs, i);
      assert servers[..n][..i] == servers[..i];
    }
  }

  ghost predicate NoneListedTwice(servers: seq<ServerInfo>, specs: map<string, Spec>) {
    forall i, j :: 0 <= i < j < |servers| && servers[i].name == servers[j].name ==> servers[i].name !in specs
  }

  lemma NoneListedTwiceGrows(servers: seq<ServerInfo>, specs: map<string, Spec>)
    requires servers != []
    ensures var n := |servers| - 1;
            NoneListedTwice(servers, specs) <==>
              NoneListedTwice(servers[..n], specs) &&
              (servers[n].name in specs ==> servers[n].name !in NamesOf(servers[..n]))
  {
    var n := |servers| - 1;
    var before := servers[..n];
    assert forall i :: 0 <= i < n ==> before[i] == servers[i] && NamesOf(before)[i] == servers[i].name;
    if servers[n].name in specs && servers[n].name in NamesOf(before) {
      var i :| 0 <= i < n && NamesOf(before)[i] == servers[n].name;
      assert servers[i].name == servers[n].name;
    }
  }

  lemma {:induction false} StatusRepeatsIff(servers: seq<ServerInfo>, specs: map<string, Spec>)
    ensures DistinctNames(StatusServers(servers, specs)) <==> NoneListedTwice(servers, specs)
  {
    if servers == [] {
    } else {
      var n := |servers| - 1;
      StatusRepeatsIff(servers[..n], specs);
      StatusListsListed(servers[..n], specs);
      DistinctGrows(StatusServers(servers[..n], specs), servers[n].name);
      NoneListedTwiceGrows(servers, specs);
      assert servers[n].name !in specs ==> StatusServers(servers, specs) == StatusServers(servers[..n], specs);
    }
  }

  /** No server with a specification shares its name with another listed server. */
  ghost predicate FetchedAreUnique(servers: seq<ServerInfo>, fetch: nat -> Fetch) {
    forall i, j :: 0 <= i < |servers| && 0 <= j < |servers| && i != j && fetch(i).Fetched? ==>
      servers[i].name != servers[j].name
  }

  lemma UniqueIffNoneTwice(servers: seq<ServerInfo>, fetch: nat -> Fetch)
    ensures NoneListedTwice(servers, SpecsOf(servers, fetch)) <==> FetchedAreUnique(servers, fetch)
  {
    var specs := SpecsOf(servers, fetch);
    if NoneListedTwice(servers, specs) {
      forall i, j | 0 <= i < |servers| && 0 <= j < |servers| && i != j && fetch(i).Fetched?
        ensures servers[i].name != servers[j].name
      {
        SpecsComeFromFetches(servers, fetch, servers[i].name);
        assert servers[i].name in specs;
      }
    }
    if FetchedAreUnique(servers, fetch) {
      forall i, j | 0 <= i < j < |servers| && servers[i].name == servers[j].name
        ensures servers[i].name !in specs
      {
        SpecsComeFromFetches(servers, fetch, servers[i].name);
      }
    }
  }

  /** ServersDiscovered equals the length of Status.Servers exactly under that condition. */
  lemma StatusCountsAgreeIff(servers: seq<ServerInfo>, fetch: nat -> Fetch)
    ensures var specs := SpecsOf(servers, fetch);
            |StatusServers(servers, specs)| == |specs| <==> FetchedAreUnique(servers, fetch)
  {
    var specs := SpecsOf(servers, fetch);
    SpecsAreOfFetched(servers, fetch);
    FetchedAreListed(servers, fetch, IsFetched);
    StatusListsSpecs(servers, specs);
    DistinctIffAsManyNames(StatusServers(servers, specs));
    assert |specs| == |specs.Keys|;
    StatusRepeatsIff(servers, specs);
    UniqueIffNoneTwice(servers, fetch);
  }

  lemma DistinctAreUnique(servers: seq<ServerInfo>, fetch: nat -> Fetch)
    requires DistinctNames(NamesOf(servers))
    ensures FetchedAreUnique(servers, fetch)
  {
    assert forall i :: 0 <= i < |servers| ==> NamesOf(servers)[i] == servers[i].name;
  }

  lemma {:induction false} OutcomesAddUp(servers: seq<ServerInfo>, fetch: nat -> Fetch)
    ensures |servers| == |NamesWhere(servers, fetch, IsFetched)| + |NamesWhere(servers, fetch, IsError)|
                         + |NamesWhere(servers, fetch, IsAbsent)|
  {
    if servers == [] {
    } else {
      OutcomesAddUp(servers[..|servers| - 1], fetch);
    }
  }

  lemma {:induction false} NamedByOutcome(servers: seq<ServerInfo>, fetch: nat -> Fetch, which: Fetch -> bool, i: nat)
    requires DistinctNames(NamesOf(servers)) && i < |servers|
    ensures servers[i].name in NamesWhere(servers, fetch, which) <==> which(fetch(i))
  {
    var n := |servers| - 1;
    NamesGrow(servers);
    FetchedAreListed(servers[..n], fetch, which);
    if i == n {
    } else {
      assert NamesOf(servers[..n])[i] == servers[i].name;
      NamedByOutcome(servers[..n], fetch, which, i);
    }
  }

  lemma EveryNameHasOneOutcome(servers: seq<ServerInfo>, fetch: nat -> Fetch, name: string)
    requires DistinctNames(NamesOf(servers)) && name in NamesOf(servers)
    ensures (if name in NamesWhere(servers, fetch, IsFetched) then 1 else 0) +
            (if name in NamesWhere(servers, fetch, IsError) then 1 else 0) +
            (if name in NamesWhere(servers, fetch, IsAbsent) then 1 else 0) == 1
  {
    var i :| 0 <= i < |servers| && NamesOf(servers)[i] == name;
    NamedByOutcome(servers, fetch, IsFetched, i);
    NamedByOutcome(servers, fetch, IsError, i);
    NamedByOutcome(servers, fetch, IsAbsent, i);
  }

  lemma ThreeParts(all: seq<string>, a: seq<string>, b: seq<string>, c: seq<string>)
    requires forall x :: x in a || x in b || x in c ==> x in all
    requires forall x :: x in all ==>
               (if x in a then 1 else 0) + (if x in b then 1 else 0) + (if x in c then 1 else 0) == 1
    ensures AsSet(all) == AsSet(a) + AsSet(b) + AsSet(c)
    ensures AsSet(a) !! AsSet(b) !! AsSet(c)
  {
  }

  /** Conservation: for distinct names every listed server is counted once, as a specification, an
      error or a skipped server, and the status shows exactly the specifications. */
  lemma EveryServerIsCountedOnce(servers: seq<ServerInfo>, fetch: nat -> Fetch)
    requires DistinctNames(NamesOf(servers))
    ensures var specs, errors, skipped :=
              SpecsOf(servers, fetch), NamesWhere(servers, fetch, IsError), NamesWhere(servers, fetch, IsAbsent);
            && |servers| == |specs| + |errors| + |skipped|
            && AsSet(NamesOf(servers)) == specs.Keys + AsSet(errors) + AsSet(skipped)
            && specs.Keys !! AsSet(errors) !! AsSet(skipped)
            && |StatusServers(servers, specs)| == |specs|
  {
    var specs := SpecsOf(servers, fetch);
    var fetched, errors, skipped := NamesWhere(servers, fetch, IsFetched), NamesWhere(servers, fetch, IsError),
                                    NamesWhere(servers, fetch, IsAbsent);
    SpecsAreOfFetched(servers, fetch);
    FetchedAreListed(servers, fetch, IsFetched);
    DistinctIffAsManyNames(fetched);
    assert |specs| == |specs.Keys| == |fetched|;
    OutcomesAddUp(servers, fetch);
    FetchedAreListed(servers, fetch, IsError);
    FetchedAreListed(servers, fetch, IsAbsent);
    forall x | x in NamesOf(servers)
      ensures (if x in fetched then 1 else 0) + (if x in errors then 1 else 0) + (if x in skipped then 1 else 0) == 1
    {
      EveryNameHasOneOutcome(servers, fetch, x);
    }
    ThreeParts(NamesOf(servers), fetched, errors, skipped);
    DistinctAreUnique(servers, fetch);
    StatusCountsAgreeIff(servers, fetch);
  }
}
