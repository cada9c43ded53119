/**
 Names of registry ConfigMaps: the sanitiser and the writer of pkg/registry/cache/cache_manager.go,
 the reader in pkg/services/registry_service.go, and the watch mapping of
 controllers/mcpserver_controller.go.
 */
module Naming {
  import opened Strings
  import opened Wrappers

  const MAX := 253

  predicate Alphanumeric(c: char) {
    'a' <= c <= 'z' || '0' <= c <= '9'
  }

  const SEPARATORS := "-."

  predicate Separator(c: char) {
    c in SEPARATORS
  }

  /** The characters of a DNS-1123 name. */
  predicate Allowed(c: char) {
    Alphanumeric(c) || Separator(c)
  }

  function ReplaceAll(s: string, from: char, to: char): string {
    seq(|s|, i requires 0 <= i < |s| => if s[i] == from then to else s[i])
  }

  function ReplaceDisallowed(s: string): string {
    seq(|s|, i requires 0 <= i < |s| => if Allowed(s[i]) then s[i] else '-')
  }

  /** Everything before the cut to 253 characters. */
  function Uncut(s: string): string {
    var s := ReplaceDisallowed(ReplaceAll(ReplaceAll(ToLower(s), '_', '-'), ' ', '-'));
    var s := Trim(s, SEPARATORS);
    if s == "" then "server" else s
  }

  function Dns1123Name(s: string): string {
    var s := Uncut(s);
    if |s| > MAX then s[..MAX] else s
  }

  // ---- The sanitiser ----------------------------------------------------------------------

  predicate AllAllowed(s: string) {
    forall i :: 0 <= i < |s| ==> Allowed(s[i])
  }

  predicate TidyEnds(s: string) {
    s != "" && !Separator(s[0]) && !Separator(s[|s| - 1])
  }

  /** Host-name syntax: allowed characters, alphanumeric ends, at most 253 characters. */
  predicate IsHostName(s: string) {
    AllAllowed(s) && TidyEnds(s) && |s| <= MAX
  }

  lemma TrimmedShape(s: string)
    requires AllAllowed(s)
    ensures var t := Trim(s, SEPARATORS);
            AllAllowed(t) && |t| <= |s| && (t != "" ==> TidyEnds(t))
  {
    var left := TrimLeft(s, SEPARATORS);
    TrimLeftShape(s, SEPARATORS);
    TrimRightShape(left, SEPARATORS);
    assert forall i :: 0 <= i < |left| ==> left[i] == s[|s| - |left| + i];
  }

  lemma UncutShape(s: string)
    ensures AllAllowed(Uncut(s)) && TidyEnds(Uncut(s))
    ensures |Uncut(s)| <= |s| || Uncut(s) == "server"
  {
    var t := ReplaceDisallowed(ReplaceAll(ReplaceAll(ToLower(s), '_', '-'), ' ', '-'));
    TrimmedShape(t);
  }

  /** Whatever the directory is called, the result has allowed characters only, between 1 and
      253 of them, and starts with a letter or digit. */
  lemma SanitisedShape(s: string)
    ensures var r := Dns1123Name(s);
            AllAllowed(r) && 1 <= |r| <= MAX && Alphanumeric(r[0])
    ensures !IsHostName(Dns1123Name(s)) <==> |Uncut(s)| > MAX && Separator(Uncut(s)[MAX - 1])
  {
    UncutShape(s);
  }

  function Mapped(c: char): char {
    if Allowed(Lower(c)) then Lower(c) else '-'
  }

  const DIGITS := "0123456789"

  predicate Kept(c: char) {
    c in SMALL_LETTERS || c in DIGITS || c == '-' || c == '.'
  }

  lemma AllowedIsKept(c: char)
    ensures Allowed(c) <==> Kept(c)
  {
    SmallLettersInOrder(c);
    if '0' <= c <= '9' {
      assert DIGITS[c as int - '0' as int] == c;
    }
  }

  /** Which characters are kept: small letters, digits, hyphen and dot.  Capitals become small, two letters of
      other alphabets become "i" and "k", and everything else a hyphen. */
  lemma MappedLetterByLetter(c: char)
    ensures c !in CAPITALS && c != '\U{130}' && c != '\U{212A}' ==> Mapped(c) == if Kept(c) then c else '-'
    ensures forall i :: 0 <= i < 26 ==> Mapped(CAPITALS[i]) == SMALL_LETTERS[i]
    ensures Mapped('\U{130}') == 'i' && Mapped('\U{212A}') == 'k'
  {
    LowerLetterByLetter(c);
    AllowedIsKept(c);
    forall i | 0 <= i < 26
      ensures Allowed(SMALL_LETTERS[i])
    {
      SmallLettersInOrder(SMALL_LETTERS[i]);
    }
  }

  /** A name that starts and ends with letters or digits is mapped character by character: lower
      case, and a hyphen for everything that is not allowed. */
  lemma MappedCharByChar(s: string)
    requires s != "" && Alphanumeric(Lower(s[0])) && Alphanumeric(Lower(s[|s| - 1])) && |s| <= MAX
    ensures |Dns1123Name(s)| == |s|
    ensures forall i :: 0 <= i < |s| ==> Dns1123Name(s)[i] == Mapped(s[i])
  {
  }

  /** What is left of `m` between `lo` and `hi` is what stands between its outer hyphens and dots. */
  ghost predicate Strips(m: string, lo: nat, hi: nat) {
    && lo <= hi <= |m|
    && (forall i :: 0 <= i < lo || hi <= i < |m| ==> m[i] in {'-', '.'})
    && (lo < hi ==> m[lo] !in {'-', '.'} && m[hi - 1] !in {'-', '.'})
  }

  /** The name that is made of this part. */
  function UpTo253(m: string, lo: nat, hi: nat): string
    requires lo <= hi <= |m|
  {
    if lo == hi then "server" else if hi - lo > 253 then m[lo..lo + 253] else m[lo..hi]
  }

  lemma TrimStrips(m: string)
    ensures exists lo: nat, hi: nat :: Strips(m, lo, hi) && Trim(m, SEPARATORS) == m[lo..hi]
  {
    var lo, hi := TrimShape(m, SEPARATORS);
    assert Strips(m, lo, hi) && Trim(m, SEPARATORS) == m[lo..hi];
  }

  lemma UncutIsTrimmed(s: string, m: string)
    requires |m| == |s| && forall i :: 0 <= i < |s| ==> m[i] == Mapped(s[i])
    ensures Uncut(s) == if Trim(m, SEPARATORS) == "" then "server" else Trim(m, SEPARATORS)
  {
    assert ReplaceDisallowed(ReplaceAll(ReplaceAll(ToLower(s), '_', '-'), ' ', '-')) == m;
  }

  /** Any name is mapped character by character, loses its outer hyphens and dots, and is cut to 253
      characters; if nothing is left it becomes "server". */
  lemma SanitisedForm(s: string, m: string)
    requires |m| == |s| && forall i :: 0 <= i < |s| ==> m[i] == Mapped(s[i])
    ensures exists lo: nat, hi: nat :: Strips(m, lo, hi) && Dns1123Name(s) == UpTo253(m, lo, hi)
  {
    UncutIsTrimmed(s, m);
    TrimStrips(m);
    var lo: nat, hi: nat :| Strips(m, lo, hi) && Trim(m, SEPARATORS) == m[lo..hi];
    assert Uncut(s) == if lo == hi then "server" else m[lo..hi];
    assert Strips(m, lo, hi) && Dns1123Name(s) == UpTo253(m, lo, hi);
  }

  lemma TidyIsUncut(s: string)
    requires AllAllowed(s) && TidyEnds(s)
    ensures Uncut(s) == s
  {
  }

  /** The fixpoints are exactly the host names. */
  lemma FixpointIff(s: string)
    ensures Dns1123Name(s) == s <==> IsHostName(s)
  {
    UncutShape(s);
    if IsHostName(s) {
      TidyIsUncut(s);
    }
  }

  /** Sanitising twice is sanitising once, except when the cut ends on a separator. */
  lemma IdempotentIff(s: string)
    ensures Dns1123Name(Dns1123Name(s)) == Dns1123Name(s) <==>
              !(|Uncut(s)| > MAX && Separator(Uncut(s)[MAX - 1]))
  {
    SanitisedShape(s);
    FixpointIff(Dns1123Name(s));
  }

  // ---- ConfigMaps -------------------------------------------------------------------------

  datatype ConfigMap = ConfigMap(namespace: string, name: string, registry: Option<string>, server: Option<string>)

  datatype RegistryRef = RegistryRef(name: string, registry: string, serverName: string) {
    /** The registry a reference resolves to: the current field, else the deprecated one. */
    function Resolved(): string {
      if name != "" then name else registry
    }
  }

  datatype Server = Server(namespace: string, name: string, registry: Option<RegistryRef>)

  function ConfigMapName(registry: string, server: string): string {
    "mcpregistry-" + registry + "-" + server
  }

  /** CacheServer: the ConfigMap written for a directory of a registry. */
  function CacheServer(namespace: string, registry: string, directory: string): ConfigMap {
    var safe := Dns1123Name(directory);
    ConfigMap(namespace, ConfigMapName(registry, safe), Some(registry), Some(safe))
  }

  function CacheIndex(namespace: string, registry: string): ConfigMap {
    ConfigMap(namespace, ConfigMapName(registry, "index"), Some(registry), None)
  }

  function RegistryOf(s: Server): string {
    if s.registry.Some? then s.registry.value.Resolved() else ""
  }

  function ServerOf(s: Server): string {
    if s.registry.Some? && s.registry.value.serverName != "" then s.registry.value.serverName else s.name
  }

  /** The ConfigMap name that enrichment reads, once Reconcile has filled in the registry name. */
  function ReadName(s: Server): string {
    ConfigMapName(RegistryOf(s), ServerOf(s))
  }

  predicate Uses(s: Server, cm: ConfigMap) {
    && s.namespace == cm.namespace && s.registry.Some?
    && Some(RegistryOf(s)) == cm.registry && Some(ServerOf(s)) == cm.server
  }

  /** findMCPServersForConfigMap over the servers of the ConfigMap's namespace. */
  method FindMCPServersForConfigMap(cm: ConfigMap, servers: seq<Server>) returns (requests: seq<(string, string)>)
    requires forall i :: 0 <= i < |servers| ==> servers[i].namespace == cm.namespace
    ensures forall r :: r in requests ==>
              exists i :: 0 <= i < |servers| && r == (servers[i].namespace, servers[i].name) &&
                          Uses(servers[i], cm) && ReadName(servers[i]) == cm.name
    ensures cm.registry.Some? && cm.server.Some? && cm.name == ConfigMapName(cm.registry.value, cm.server.value) ==>
              forall i :: 0 <= i < |servers| && Uses(servers[i], cm) ==>
                (servers[i].namespace, servers[i].name) in requests
  {
    requests := [];
    if cm.registry.None? || cm.server.None? {
      return;
    }
    var registry, server := cm.registry.value, cm.server.value;
    if cm.name != ConfigMapName(registry, server) {
      return;
    }
    for i := 0 to |servers|
      invariant forall r :: r in requests ==>
                  exists j :: 0 <= j < i && r == (servers[j].namespace, servers[j].name) && Uses(servers[j], cm)
      invariant forall j :: 0 <= j < i && Uses(servers[j], cm) ==> (servers[j].namespace, servers[j].name) in requests
    {
      var s := servers[i];
      if s.registry.Some? {
        var ref := s.registry.value;
        var registryName, serverName := "", s.name;
        if ref.name != "" {
          registryName := ref.name;
        } else if ref.registry != "" {
          registryName := ref.registry;
        }
        if ref.serverName != "" {
          serverName := ref.serverName;
        }
        if registryName == registry && serverName == server {
          requests := requests + [(s.namespace, s.name)];
          assert Uses(servers[i], cm);
        }
      }
    }
  }

  /** For a ConfigMap as CacheServer writes it, the requeued servers are exactly those that resolve
      to the same registry and the same sanitised directory. */
  lemma WatchMatchesWriter(namespace: string, registry: string, directory: string, s: Server)
    requires s.namespace == namespace && s.registry.Some?
    ensures var cm := CacheServer(namespace, registry, directory);
            && cm.name == ConfigMapName(cm.registry.value, cm.server.value)
            && (Uses(s, cm) <==> RegistryOf(s) == registry && ServerOf(s) == Dns1123Name(directory))
            && (Uses(s, cm) ==> ReadName(s) == cm.name)
  {
  }

  lemma ConfigMapNamesMeet(r1: string, s1: string, r2: string, s2: string)
    ensures ConfigMapName(r1, s1) == ConfigMapName(r2, s2) <==> r1 + "-" + s1 == r2 + "-" + s2
    ensures ConfigMapName(r1, s1) == ConfigMapName(r2, s2) && |r1| == |r2| ==> r1 == r2 && s1 == s2
  {
    var p := "mcpregistry-";
    var a, b := r1 + "-" + s1, r2 + "-" + s2;
    assert ConfigMapName(r1, s1) == p + a && ConfigMapName(r2, s2) == p + b;
    assert (p + a)[|p|..] == a && (p + b)[|p|..] == b;
    assert a[..|r1|] == r1 && b[..|r2|] == r2 && a[|r1| + 1..] == s1 && b[|r2| + 1..] == s2;
  }

  /** The same in the fields of the reference: the current field before the deprecated one, and the server's own
      name if no directory is named. */
  lemma RequeuedIff(namespace: string, registry: string, directory: string, s: Server)
    ensures Uses(s, CacheServer(namespace, registry, directory)) <==>
              s.namespace == namespace && s.registry.Some? &&
              var ref := s.registry.value;
              && (if ref.name == "" then ref.registry else ref.name) == registry
              && (if ref.serverName == "" then s.name else ref.serverName) == Dns1123Name(directory)
  {
  }

  /** What is read and written, spelled out. */
  lemma NamesAreSpelled(registry: string, directory: string, s: Server)
    ensures CacheServer(s.namespace, registry, directory).name ==
            "mcpregistry-" + registry + "-" + Dns1123Name(directory)
    ensures CacheIndex(s.namespace, registry).name == "mcpregistry-" + registry + "-index"
    ensures s.registry.Some? && s.registry.value.name != "" && s.registry.value.serverName != "" ==>
              ReadName(s) == "mcpregistry-" + s.registry.value.name + "-" + s.registry.value.serverName
  {
  }

  /** The converse of the watch property: a server that reads the ConfigMap of another pair is
      requeued for it exactly if its registry name is as long as the writer's. */
  lemma ReaderIsWatchedIff(namespace: string, registry: string, directory: string, s: Server)
    requires s.namespace == namespace && s.registry.Some?
    requires ReadName(s) == CacheServer(namespace, registry, directory).name
    ensures Uses(s, CacheServer(namespace, registry, directory)) <==> |RegistryOf(s)| == |registry|
  {
    ConfigMapNamesMeet(RegistryOf(s), ServerOf(s), registry, Dns1123Name(directory));
  }

  /** Hyphens make such readers possible: registry "a" writing "b-c" feeds servers of "a-b". */
  lemma ForeignConfigMapIsRead()
    ensures var s := Server("ns", "x", Some(RegistryRef("a-b", "", "c")));
            var cm := CacheServer("ns", "a", "b-c");
            ReadName(s) == cm.name && !Uses(s, cm)
  {
  }

  /** A server that names a directory as it is spelled in the registry finds its ConfigMap exactly if
      that spelling is a host name. */
  lemma ReadableUnderItselfIff(namespace: string, registry: string, directory: string)
    ensures ConfigMapName(registry, directory) == CacheServer(namespace, registry, directory).name <==>
              IsHostName(directory)
  {
    ConfigMapNamesMeet(registry, directory, registry, Dns1123Name(directory));
    FixpointIff(directory);
  }

  /** Two directories of one registry share a ConfigMap exactly if they sanitise alike, and a
      directory shares the index ConfigMap exactly if it sanitises to "index". */
  lemma SharedConfigMapIff(namespace: string, registry: string, d1: string, d2: string)
    ensures CacheServer(namespace, registry, d1).name == CacheServer(namespace, registry, d2).name <==>
              Dns1123Name(d1) == Dns1123Name(d2)
    ensures CacheServer(namespace, registry, d1).name == CacheIndex(namespace, registry).name <==>
              Dns1123Name(d1) == "index"
  {
    ConfigMapNamesMeet(registry, Dns1123Name(d1), registry, Dns1123Name(d2));
    ConfigMapNamesMeet(registry, Dns1123Name(d1), registry, "index");
  }
}
