/**
 The two ways a registry template gets into an MCPServer: EnrichMCPServerFromCache of
 pkg/services/registry_service.go fills what the user left empty, and applyTemplateUpdates of
 pkg/services/auto_update_service.go overwrites, guarded by IsUpdateRequired.
 A nil map or slice and an empty one are the same value here.
 */
module Templates {
  import opened Wrappers

  datatype Runtime = Runtime(kind: string, image: string, command: seq<string>, args: seq<string>,
                             env: map<string, string>, port: int)

  datatype Transport = Transport(kind: string, path: string)

  datatype Port = Port(name: string, port: int, targetPort: int, protocol: string, appProtocol: string)

  datatype Server = Server(annotations: map<string, string>, runtime: Option<Runtime>,
                           transport: Option<Transport>, ports: seq<Port>)

  datatype Template = Template(version: string, description: string, repository: string, license: string,
                               author: string, runtime: Runtime, transport: Option<Transport>,
                               ports: seq<Port>, digest: string)

  const VERSION := "mcp.allbeone.io/registry-version"
  const DESCRIPTION := "mcp.allbeone.io/registry-description"
  const REPOSITORY := "mcp.allbeone.io/registry-repository"
  const LICENSE := "mcp.allbeone.io/registry-license"
  const AUTHOR := "mcp.allbeone.io/registry-author"
  const DIGEST := "mcp.allbeone.io/template-digest"

  const NO_RUNTIME := Runtime("", "", [], [], map[], 0)

  function Fill(own: string, other: string): string {
    if own == "" then other else own
  }

  function FillSeq<T(==)>(own: seq<T>, other: seq<T>): seq<T> {
    if own == [] then other else own
  }

  function At(m: map<string, string>, key: string): string {
    if key in m then m[key] else ""
  }

  predicate IsDocker(kind: string) {
    kind == "docker" || kind == "Docker"
  }

  // ---- Enrichment -------------------------------------------------------------------------

  function FillAt(m: map<string, string>, key: string, value: string): map<string, string> {
    m[key := Fill(At(m, key), value)]
  }

  function WithDigest(m: map<string, string>, digest: string): map<string, string> {
    if digest == "" then m else m[DIGEST := digest]
  }

  function EnrichedAnnotations(m: map<string, string>, t: Template): map<string, string> {
    WithDigest(FillAt(FillAt(FillAt(FillAt(FillAt(m, VERSION, t.version), DESCRIPTION, t.description),
                                    REPOSITORY, t.repository), LICENSE, t.license), AUTHOR, t.author), t.digest)
  }

  /** Field by field: what the user set, else what the template says, else the default. */
  function Enriched(s: Server, t: Template): Server {
    var r := s.runtime.GetOr(NO_RUNTIME);
    var kind := Fill(r.kind, t.runtime.kind);
    var own, other := s.transport.GetOr(Transport("", "")), t.transport.GetOr(Transport("", ""));
    Server(EnrichedAnnotations(s.annotations, t),
           Some(Runtime(kind,
                        if IsDocker(kind) then Fill(r.image, t.runtime.image) else r.image,
                        FillSeq(r.command, t.runtime.command),
                        FillSeq(r.args, t.runtime.args),
                        t.runtime.env + r.env,
                        r.port)),
           Some(Transport(Fill(own.kind, Fill(other.kind, if t.ports == [] then "stdio" else "http")),
                          Fill(own.path, other.path))),
           FillSeq(s.ports, t.ports))
  }

  // ---- Template updates -------------------------------------------------------------------

  /** The template wins, except over environment keys that it does not have and the port. */
  function Applied(s: Server, t: Template): Server
    requires s.runtime.Some?
  {
    var a := s.annotations[VERSION := t.version][DESCRIPTION := t.description][REPOSITORY := t.repository]
             [LICENSE := t.license][AUTHOR := t.author];
    var r := s.runtime.value;
    s.(annotations := WithDigest(a, t.digest),
       runtime := Some(t.runtime.(env := r.env + t.runtime.env, port := r.port)))
  }

  predicate UpdateRequired(s: Server, t: Template)
    requires s.runtime.Some?
  {
    var current, r := At(s.annotations, DIGEST), s.runtime.value;
    || (current != "" && t.digest != "" && current != t.digest)
    || At(s.annotations, VERSION) != t.version
    || (r.image, r.kind, r.command, r.args) != (t.runtime.image, t.runtime.kind, t.runtime.command, t.runtime.args)
  }

  // ---- The two operations on a server -----------------------------------------------------

  method SameStrings(a: seq<string>, b: seq<string>) returns (same: bool)
    ensures same <==> a == b
  {
    if |a| != |b| {
      return false;
    }
    for i := 0 to |a|
      invariant a[..i] == b[..i]
    {
      if a[i] != b[i] {
        return false;
      }
      assert a[..i + 1] == a[..i] + [a[i]] && b[..i + 1] == b[..i] + [b[i]];
    }
    assert a[..|a|] == a && b[..|b|] == b;
    same := true;
  }

  method MergeMissing(own: map<string, string>, other: map<string, string>) returns (m: map<string, string>)
    ensures m == other + own
  {
    m := own;
    var pending := other.Keys;
    while pending != {}
      invariant pending <= other.Keys
      invariant m == (map k | k in other && k !in pending :: other[k]) + own
      decreases |pending|
    {
      var k :| k in pending;
      pending := pending - {k};
      if k !in m {
        m := m[k := other[k]];
      }
    }
  }

  method MergeOver(own: map<string, string>, other: map<string, string>) returns (m: map<string, string>)
    ensures m == own + other
  {
    m := own;
    var pending := other.Keys;
    while pending != {}
      invariant pending <= other.Keys
      invariant m == own + map k | k in other && k !in pending :: other[k]
      decreases |pending|
    {
      var k :| k in pending;
      pending := pending - {k};
      m := m[k := other[k]];
    }
  }

  /** The outcome of reading and parsing the registry ConfigMap. */
  datatype CacheRead = Unreadable | Parsed(template: Template)

  class MCPServer {
    var annotations: map<string, string>
    var runtime: Option<Runtime>
    var transport: Option<Transport>
    var ports: seq<Port>

    ghost function View(): Server
      reads this
    {
      Server(annotations, runtime, transport, ports)
    }

    constructor (s: Server)
      ensures View() == s
    {
      annotations, runtime, transport, ports := s.annotations, s.runtime, s.transport, s.ports;
    }

    method FillAnnotation(key: string, value: string)
      modifies this`annotations
      ensures annotations == FillAt(old(annotations), key, value)
    {
      if key !in annotations || annotations[key] == "" {
        annotations := annotations[key := value];
      } else {
        assert annotations == annotations[key := annotations[key]];
      }
    }

    method EnrichRuntime(t: Runtime)
      requires runtime.Some?
      modifies this`runtime
      ensures var r, kind := old(runtime).value, Fill(old(runtime).value.kind, t.kind);
              runtime == Some(Runtime(kind, if IsDocker(kind) then Fill(r.image, t.image) else r.image,
                                      FillSeq(r.command, t.command), FillSeq(r.args, t.args),
                                      t.env + r.env, r.port))
    {
      var r := runtime.value;
      if r.kind == "" && t.kind != "" {
        r := r.(kind := t.kind);
      }
      if (r.kind == "docker" || r.kind == "Docker") && r.image == "" && t.image != "" {
        r := r.(image := t.image);
      }
      if |r.command| == 0 {
        r := r.(command := t.command);
      }
      if |r.args| == 0 {
        r := r.(args := t.args);
      }
      var env := MergeMissing(r.env, t.env);
      runtime := Some(r.(env := env));
    }

    method EnrichTransport(t: Template)
      modifies this`transport
      ensures var own, other := old(transport).GetOr(Transport("", "")), t.transport.GetOr(Transport("", ""));
              transport == Some(Transport(Fill(own.kind, Fill(other.kind, if t.ports == [] then "stdio" else "http")),
                                          Fill(own.path, other.path)))
    {
      if transport.None? && t.transport.Some? {
        transport := Some(Transport(t.transport.value.kind, t.transport.value.path));
      } else if transport.Some? && t.transport.Some? {
        if transport.value.kind == "" {
          transport := Some(transport.value.(kind := t.transport.value.kind));
        }
        if transport.value.path == "" {
          transport := Some(transport.value.(path := t.transport.value.path));
        }
      }
      if transport.None? || transport.value.kind == "" {
        if transport.None? {
          transport := Some(Transport("", ""));
        }
        transport := Some(transport.value.(kind := if |t.ports| == 0 then "stdio" else "http"));
        // The source fills the path once more here; there is never anything left to fill.
        assert transport.value.path == "" && t.transport.Some? ==> t.transport.value.path == "";
      }
    }

    method EnrichFromCache(registryName: string, cache: CacheRead) returns (ok: bool)
      modifies this
      ensures ok <==> registryName != "" && cache.Parsed?
      ensures View() == if ok then Enriched(old(View()), cache.template) else old(View())
    {
      if registryName == "" || cache.Unreadable? {
        return false;
      }
      var t := cache.template;
      if runtime.None? {
        runtime := Some(NO_RUNTIME);
      }
      FillAnnotation(VERSION, t.version);
      FillAnnotation(DESCRIPTION, t.description);
      FillAnnotation(REPOSITORY, t.repository);
      FillAnnotation(LICENSE, t.license);
      FillAnnotation(AUTHOR, t.author);
      EnrichRuntime(t.runtime);
      EnrichTransport(t);
      if |ports| == 0 && |t.ports| > 0 {
        ports := t.ports;
      }
      if t.digest != "" {
        annotations := annotations[DIGEST := t.digest];
      }
      ok := true;
    }

    /** applyTemplateUpdates: the source dereferences the runtime without a nil test. */
    method ApplyTemplateUpdates(t: Template)
      requires runtime.Some?
      modifies this
      ensures View() == Applied(old(View()), t)
    {
      annotations := annotations[VERSION := t.version];
      annotations := annotations[DESCRIPTION := t.description];
      annotations := annotations[REPOSITORY := t.repository];
      annotations := annotations[LICENSE := t.license];
      annotations := annotations[AUTHOR := t.author];
      var r := runtime.value;
      r := r.(kind := t.runtime.kind, image := t.runtime.image, command := t.runtime.command, args := t.runtime.args);
      var env := MergeOver(r.env, t.runtime.env);
      runtime := Some(r.(env := env));
      if t.digest != "" {
        annotations := annotations[DIGEST := t.digest];
      }
    }

    method IsUpdateRequired(t: Template) returns (required: bool)
      requires runtime.Some?
      ensures required == UpdateRequired(View(), t)
    {
      var current := if DIGEST in annotations then annotations[DIGEST] else "";
      if current != "" && t.digest != "" && current != t.digest {
        return true;
      }
      var version := if VERSION in annotations then annotations[VERSION] else "";
      if version != t.version {
        return true;
      }
      var r := runtime.value;
      if r.image != t.runtime.image || r.kind != t.runtime.kind {
        return true;
      }
      var sameCommand := SameStrings(r.command, t.runtime.command);
      var sameArgs := SameStrings(r.args, t.runtime.args);
      required := !sameCommand || !sameArgs;
    }
  }

  // ---- Properties of one step -------------------------------------------------------------

  lemma FilledStays(m: map<string, string>, key: string, value: string)
    requires key in m && (m[key] == "" ==> value == "")
    ensures FillAt(m, key, value) == m
  {
  }

  lemma AnnotationsAreFilledOnce(m: map<string, string>, t: Template)
    ensures EnrichedAnnotations(EnrichedAnnotations(m, t), t) == EnrichedAnnotations(m, t)
  {
    var once := EnrichedAnnotations(m, t);
    FilledStays(once, VERSION, t.version);
    FilledStays(once, DESCRIPTION, t.description);
    FilledStays(once, REPOSITORY, t.repository);
    FilledStays(once, LICENSE, t.license);
    FilledStays(once, AUTHOR, t.author);
  }

  /** Enriching again with the same template changes nothing. */
  lemma EnrichmentIsIdempotent(s: Server, t: Template)
    ensures Enriched(Enriched(s, t), t) == Enriched(s, t)
  {
    var once := Enriched(s, t);
    var twice := Enriched(once, t);
    AnnotationsAreFilledOnce(s.annotations, t);
    assert twice.runtime.value.env == once.runtime.value.env;
  }

  lemma AnnotationsOnlyGrow(m: map<string, string>, t: Template)
    ensures var m' := EnrichedAnnotations(m, t);
            && (forall k :: k in m ==> k in m')
            && (forall k :: k in m && m[k] != "" && k != DIGEST ==> m'[k] == m[k])
  {
  }

  ghost predicate KeepsAnnotations(m: map<string, string>, m': map<string, string>) {
    && (forall k :: k in m ==> k in m')
    && (forall k :: k in m && m[k] != "" && k != DIGEST ==> m'[k] == m[k])
  }

  predicate OnlyFillsTransport(t: Transport, t': Transport) {
    && (t.kind != "" ==> t'.kind == t.kind)
    && (t.path != "" ==> t'.path == t.path)
  }

  predicate OnlyFillsRuntime(r: Runtime, r': Runtime) {
    && (r.kind != "" ==> r'.kind == r.kind)
    && (r.image != "" ==> r'.image == r.image)
    && (r.command != [] ==> r'.command == r.command)
    && (r.args != [] ==> r'.args == r.args)
    && (forall k :: k in r.env ==> k in r'.env && r'.env[k] == r.env[k])
    && r'.port == r.port
  }

  /** Nothing that is set in `s` has another value in `s'`, except the digest annotation. */
  ghost predicate OnlyFills(s: Server, s': Server) {
    && KeepsAnnotations(s.annotations, s'.annotations)
    && (s.ports != [] ==> s'.ports == s.ports)
    && (s.transport.Some? ==> s'.transport.Some? && OnlyFillsTransport(s.transport.value, s'.transport.value))
    && (s.runtime.Some? ==> s'.runtime.Some? && OnlyFillsRuntime(s.runtime.value, s'.runtime.value))
  }

  /** Enrichment changes nothing that the user has set, except the digest annotation. */
  lemma EnrichmentOnlyFills(s: Server, t: Template)
    ensures OnlyFills(s, Enriched(s, t))
    ensures Enriched(s, t).runtime.Some? && Enriched(s, t).transport.Some?
  {
    AnnotationsOnlyGrow(s.annotations, t);
  }

  /** Key by key, what enrichment leaves in an annotation: the user's value unless it is missing or empty. */
  ghost predicate FilledIn(m: map<string, string>, m': map<string, string>, key: string, value: string) {
    key in m' && m'[key] == if key in m && m[key] != "" then m[key] else value
  }

  /** The digest is the template's if that has one. */
  ghost predicate HasDigestOf(m: map<string, string>, m': map<string, string>, t: Template) {
    var key := "mcp.allbeone.io/template-digest";
    if t.digest != "" then key in m' && m'[key] == t.digest
    else (key in m' <==> key in m) && (key in m ==> m'[key] == m[key])
  }

  /** Which field of the template fills which annotation. */
  lemma AnnotationsAreFilledFrom(s: Server, t: Template)
    ensures var m, m' := s.annotations, Enriched(s, t).annotations;
            && FilledIn(m, m', "mcp.allbeone.io/registry-version", t.version)
            && FilledIn(m, m', "mcp.allbeone.io/registry-description", t.description)
            && FilledIn(m, m', "mcp.allbeone.io/registry-repository", t.repository)
            && FilledIn(m, m', "mcp.allbeone.io/registry-license", t.license)
            && FilledIn(m, m', "mcp.allbeone.io/registry-author", t.author)
            && HasDigestOf(m, m', t)
            && forall k :: k !in {VERSION, DESCRIPTION, REPOSITORY, LICENSE, AUTHOR, DIGEST} ==>
                 (k in m' <==> k in m) && (k in m ==> m'[k] == m[k])
  {
  }

  /** What enrichment puts where the user left a gap. */
  lemma GapsAreFilledFrom(s: Server, t: Template)
    ensures var r := if s.runtime.Some? then s.runtime.value else Runtime("", "", [], [], map[], 0);
            var r' := Enriched(s, t).runtime.value;
            && (r.kind == "" ==> r'.kind == t.runtime.kind)
            && (r.image == "" ==> r'.image == if r'.kind in {"docker", "Docker"} then t.runtime.image else "")
            && (r.command == [] ==> r'.command == t.runtime.command)
            && (r.args == [] ==> r'.args == t.runtime.args)
            && r'.env.Keys == r.env.Keys + t.runtime.env.Keys
            && (forall k :: k in t.runtime.env && k !in r.env ==> r'.env[k] == t.runtime.env[k])
            && r'.port == r.port
    ensures s.ports == [] ==> Enriched(s, t).ports == t.ports
    ensures s.transport.None? || s.transport.value.kind == "" ==>
              t.transport.Some? && t.transport.value.kind != "" ==>
                Enriched(s, t).transport.value.kind == t.transport.value.kind
    ensures s.transport.None? || s.transport.value.path == "" ==>
              Enriched(s, t).transport.value.path == if t.transport.Some? then t.transport.value.path else ""
  {
  }

  // ---- Patches from an older version ------------------------------------------------------

  // Reconcile patches what it changed in the version it read, and the patch names no version: the
  // stored object may have changed since.

  function Merge<T(==)>(stored: T, read: T, changed: T): T {
    if changed == read then stored else changed
  }

  function MergeMaps(stored: map<string, string>, read: map<string, string>, changed: map<string, string>)
    : map<string, string>
  {
    stored + map k | k in changed && (k !in read || read[k] != changed[k]) :: changed[k]
  }

  function MergeRuntimes(stored: Runtime, read: Runtime, changed: Runtime): Runtime {
    Runtime(Merge(stored.kind, read.kind, changed.kind), Merge(stored.image, read.image, changed.image),
            Merge(stored.command, read.command, changed.command), Merge(stored.args, read.args, changed.args),
            MergeMaps(stored.env, read.env, changed.env), stored.port)
  }

  function MergeTransports(stored: Option<Transport>, read: Option<Transport>, changed: Transport): Option<Transport> {
    if Some(changed) == read then stored
    else
      var own, seen := stored.GetOr(Transport("", "")), read.GetOr(Transport("", ""));
      Some(Transport(Merge(own.kind, seen.kind, changed.kind), Merge(own.path, seen.path, changed.path)))
  }

  /** The stored object after the patch of a reconcile that read `read`. */
  function Patched(stored: Server, read: Server, t: Template): Server
    requires stored.runtime.Some? && read.runtime.Some?
  {
    var e := Enriched(read, t);
    Server(MergeMaps(stored.annotations, read.annotations, e.annotations),
           Some(MergeRuntimes(stored.runtime.value, read.runtime.value, e.runtime.value)),
           MergeTransports(stored.transport, read.transport, e.transport.value),
           Merge(stored.ports, read.ports, e.ports))
  }

  lemma MergedMapIsChanged(m: map<string, string>, changed: map<string, string>)
    requires forall k :: k in m ==> k in changed
    ensures MergeMaps(m, m, changed) == changed
  {
  }

  /** On the version that was read, the patch is the enrichment. */
  lemma PatchOfLatestIsEnrichment(s: Server, t: Template)
    requires s.runtime.Some?
    ensures Patched(s, s, t) == Enriched(s, t)
  {
    AnnotationsOnlyGrow(s.annotations, t);
    MergedMapIsChanged(s.annotations, Enriched(s, t).annotations);
    MergedMapIsChanged(s.runtime.value.env, Enriched(s, t).runtime.value.env);
  }

  /** A value that was empty when it was read, that the template fills, and that somebody else has filled
      otherwise in the meantime. */
  predicate Raced(stored: string, read: string, filling: string) {
    read == "" && filling != "" && stored != "" && stored != filling
  }

  predicate RacedSeq<T(==)>(stored: seq<T>, read: seq<T>, filling: seq<T>) {
    read == [] && filling != [] && stored != [] && stored != filling
  }

  // An annotation that was not there is written even if the template has nothing to fill in.
  predicate RacedAt(stored: map<string, string>, read: map<string, string>, key: string, filling: string) {
    && At(read, key) == "" && (filling != "" || key !in read)
    && At(stored, key) != "" && At(stored, key) != filling
  }

  /** What the template has for one of the five annotations that are filled. */
  function Filling(t: Template, key: string): Option<string> {
    if key == VERSION then Some(t.version)
    else if key == DESCRIPTION then Some(t.description)
    else if key == REPOSITORY then Some(t.repository)
    else if key == LICENSE then Some(t.license)
    else if key == AUTHOR then Some(t.author)
    else None
  }

  ghost predicate RacedAnnotations(stored: map<string, string>, read: map<string, string>, t: Template) {
    exists k :: k in stored && Filling(t, k).Some? && RacedAt(stored, read, k, Filling(t, k).value)
  }

  predicate RacedRuntime(stored: Runtime, read: Runtime, t: Runtime) {
    || Raced(stored.kind, read.kind, t.kind)
    || (IsDocker(Fill(read.kind, t.kind)) && Raced(stored.image, read.image, t.image))
    || RacedSeq(stored.command, read.command, t.command) || RacedSeq(stored.args, read.args, t.args)
    || exists k :: k in t.env && k !in read.env && k in stored.env && stored.env[k] != t.env[k]
  }

  predicate RacedTransport(stored: Transport, read: Transport, t: Template) {
    var other := t.transport.GetOr(Transport("", ""));
    || Raced(stored.kind, read.kind, Fill(other.kind, if t.ports == [] then "stdio" else "http"))
    || Raced(stored.path, read.path, other.path)
  }

  lemma FilledAnnotation(m: map<string, string>, t: Template, k: string)
    requires k != DIGEST
    ensures var m' := EnrichedAnnotations(m, t);
            && (k in m' <==> k in m || Filling(t, k).Some?)
            && (k in m' ==> m'[k] == if Filling(t, k).Some? then Fill(At(m, k), Filling(t, k).value) else m[k])
  {
  }

  lemma PatchedAnnotation(stored: map<string, string>, read: map<string, string>, t: Template, k: string)
    requires k in stored && stored[k] != "" && k != DIGEST
    ensures var merged := MergeMaps(stored, read, EnrichedAnnotations(read, t));
            k in merged &&
            (merged[k] != stored[k] <==> Filling(t, k).Some? && RacedAt(stored, read, k, Filling(t, k).value))
  {
    FilledAnnotation(read, t, k);
  }

  lemma KeptUnlessRaced(stored: map<string, string>, read: map<string, string>, merged: map<string, string>,
                        t: Template)
    requires stored.Keys <= merged.Keys
    requires forall k :: k in stored && stored[k] != "" && k != DIGEST ==>
               (merged[k] != stored[k] <==> Filling(t, k).Some? && RacedAt(stored, read, k, Filling(t, k).value))
    ensures KeepsAnnotations(stored, merged) <==> !RacedAnnotations(stored, read, t)
  {
    if k :| k in stored && Filling(t, k).Some? && RacedAt(stored, read, k, Filling(t, k).value) {
      assert stored[k] != "" && k != DIGEST;
    }
  }

  lemma PatchKeepsAnnotationsIff(stored: map<string, string>, read: map<string, string>, t: Template)
    ensures KeepsAnnotations(stored, MergeMaps(stored, read, EnrichedAnnotations(read, t))) <==>
              !RacedAnnotations(stored, read, t)
  {
    var merged := MergeMaps(stored, read, EnrichedAnnotations(read, t));
    KeptUnlessRaced(stored, read, merged, t) by {
      forall k | k in stored && stored[k] != "" && k != DIGEST
        ensures merged[k] != stored[k] <==> Filling(t, k).Some? && RacedAt(stored, read, k, Filling(t, k).value)
      {
        PatchedAnnotation(stored, read, t, k);
      }
    }
  }

  lemma PatchKeepsRuntimeIff(stored: Runtime, read: Server, t: Template)
    requires read.runtime.Some?
    ensures OnlyFillsRuntime(stored, MergeRuntimes(stored, read.runtime.value, Enriched(read, t).runtime.value)) <==>
              !RacedRuntime(stored, read.runtime.value, t.runtime)
  {
    var seen, other := read.runtime.value.env, t.runtime.env;
    var env := MergeMaps(stored.env, seen, other + seen);
    assert forall k :: k in stored.env ==>
      (env[k] != stored.env[k] <==> k in other && k !in seen && other[k] != stored.env[k]);
  }

  lemma PatchKeepsTransportIff(stored: Transport, read: Server, t: Template)
    ensures var merged := MergeTransports(Some(stored), read.transport, Enriched(read, t).transport.value);
            merged.Some? && (OnlyFillsTransport(stored, merged.value) <==>
              !RacedTransport(stored, read.transport.GetOr(Transport("", "")), t))
  {
  }

  /** If the transport was removed in the meantime, it stays so unless enrichment changed it, and then only what
      was changed comes back. */
  lemma PatchOfRemovedTransport(read: Option<Transport>, changed: Transport)
    ensures read == Some(changed) ==> MergeTransports(None, read, changed) == None
    ensures read != Some(changed) ==>
              var kind := if read.Some? then read.value.kind else "";
              var path := if read.Some? then read.value.path else "";
              MergeTransports(None, read, changed) ==
              Some(Transport(if kind == changed.kind then "" else changed.kind,
                             if path == changed.path then "" else changed.path))
  {
  }

  /** A patch from an older version only fills, exactly if nothing that it fills was filled otherwise in
      the meantime; what it finds filled it overwrites. */
  lemma PatchOnlyFillsIff(stored: Server, read: Server, t: Template)
    requires stored.runtime.Some? && read.runtime.Some?
    ensures OnlyFills(stored, Patched(stored, read, t)) <==>
              && !RacedAnnotations(stored.annotations, read.annotations, t)
              && !RacedRuntime(stored.runtime.value, read.runtime.value, t.runtime)
              && !RacedTransport(stored.transport.GetOr(Transport("", "")), read.transport.GetOr(Transport("", "")), t)
              && !RacedSeq(stored.ports, read.ports, t.ports)
  {
    PatchKeepsAnnotationsIff(stored.annotations, read.annotations, t);
    PatchKeepsRuntimeIff(stored.runtime.value, read, t);
    if stored.transport.Some? {
      PatchKeepsTransportIff(stored.transport.value, read, t);
    }
  }

  /** The user sets an image while a reconcile that still reads the server without one enriches it: the
      template's image replaces the user's. */
  lemma UsersImageIsOverwritten(read: Server, t: Template, image: string)
    requires read.runtime.Some? && IsDocker(read.runtime.value.kind) && read.runtime.value.image == ""
    requires t.runtime.image != "" && image != "" && image != t.runtime.image
    ensures var stored := read.(runtime := Some(read.runtime.value.(image := image)));
            Patched(stored, read, t).runtime.value.image == t.runtime.image
  {
  }

  /** Afterwards a transport type is always set; it is guessed from the template's ports alone. */
  lemma TransportIsChosen(s: Server, t: Template)
    ensures Enriched(s, t).transport.value.kind != ""
    ensures s.transport.GetOr(Transport("", "")).kind == "" && t.transport.GetOr(Transport("", "")).kind == "" ==>
              (Enriched(s, t).transport.value.kind == "stdio" <==> t.ports == []) &&
              (Enriched(s, t).transport.value.kind == "http" <==> t.ports != [])
  {
  }

  /** The template's environment wins key by key, and the server keeps what else it had. */
  lemma TemplatesEnvironmentWins(s: Server, t: Template)
    requires s.runtime.Some?
    ensures var own, other, env := s.runtime.value.env, t.runtime.env, Applied(s, t).runtime.value.env;
            && (forall k :: k in other ==> k in env && env[k] == other[k])
            && (forall k :: k in own && k !in other ==> k in env && env[k] == own[k])
            && (forall k :: k in env ==> k in own || k in other)
  {
  }

  ghost predicate Holds(m: map<string, string>, key: string, value: string) {
    key in m && m[key] == value
  }

  /** Which field of the template overwrites which annotation; no other annotation changes. */
  lemma AnnotationsAreOverwrittenFrom(s: Server, t: Template)
    requires s.runtime.Some?
    ensures var m, m' := s.annotations, Applied(s, t).annotations;
            && Holds(m', "mcp.allbeone.io/registry-version", t.version)
            && Holds(m', "mcp.allbeone.io/registry-description", t.description)
            && Holds(m', "mcp.allbeone.io/registry-repository", t.repository)
            && Holds(m', "mcp.allbeone.io/registry-license", t.license)
            && Holds(m', "mcp.allbeone.io/registry-author", t.author)
            && HasDigestOf(m, m', t)
            && forall k :: k !in {VERSION, DESCRIPTION, REPOSITORY, LICENSE, AUTHOR, DIGEST} ==>
                 (k in m' <==> k in m) && (k in m ==> m'[k] == m[k])
  {
  }

  /** The runtime is the template's, and nothing outside it is the template's: the port, the transport and the
      ports of the server stay. */
  lemma RuntimeIsOverwrittenFrom(s: Server, t: Template)
    requires s.runtime.Some?
    ensures var s' := Applied(s, t);
            && s'.runtime.Some?
            && s'.runtime.value.kind == t.runtime.kind && s'.runtime.value.image == t.runtime.image
            && s'.runtime.value.command == t.runtime.command && s'.runtime.value.args == t.runtime.args
            && s'.runtime.value.port == s.runtime.value.port
            && s'.transport == s.transport && s'.ports == s.ports
  {
  }

  /** An applied template is never required again. */
  lemma ApplyingReachesAFixpoint(s: Server, t: Template)
    requires s.runtime.Some?
    ensures !UpdateRequired(Applied(s, t), t)
    ensures Applied(Applied(s, t), t) == Applied(s, t)
    ensures forall k :: k in s.runtime.value.env && k !in t.runtime.env ==>
              k in Applied(s, t).runtime.value.env && Applied(s, t).runtime.value.env[k] == s.runtime.value.env[k]
  {
    var once := Applied(s, t);
    assert Applied(once, t).annotations == once.annotations;
    assert Applied(once, t).runtime.value.env == once.runtime.value.env;
  }

  /** What the test overlooks: an update is not required exactly if applying it would change nothing but the
      environment, annotations other than the version and the digest, and a digest that is not there yet. */
  lemma NotRequiredStillDiffersIn(s: Server, t: Template)
    requires s.runtime.Some?
    ensures var s' := Applied(s, t);
            !UpdateRequired(s, t) <==>
              && s'.runtime.value.(env := s.runtime.value.env) == s.runtime.value
              && (s'.transport, s'.ports) == (s.transport, s.ports)
              && At(s'.annotations, VERSION) == At(s.annotations, VERSION)
              && (At(s.annotations, DIGEST) != "" ==> At(s'.annotations, DIGEST) == At(s.annotations, DIGEST))
  {
  }

  // ---- Two copies of one template ---------------------------------------------------------

  // Enrichment reads the ConfigMap copy of a template, the auto-update service the live one.

  /** What the cached copy fills in never contradicts the live template: where the live one leaves
      the version or a runtime field empty, so does the copy, and a digest is missing or the same. */
  predicate Compatible(copy: Template, live: Template) {
    var c, l := copy.runtime, live.runtime;
    && (copy.digest == live.digest || copy.digest == "" || live.digest == "")
    && (live.version == "" ==> copy.version == "")
    && (l.kind == "" ==> c.kind == "")
    && (l.command == [] ==> c.command == [])
    && (l.args == [] ==> c.args == [])
    && (IsDocker(l.kind) && l.image == "" ==> c.image == "")
  }

  /** Enriching an up-to-date server from the copy leaves it up to date exactly if the two are
      compatible; otherwise enrichment makes an update required, whatever the server was. */
  lemma EnrichmentKeepsUpToDateIff(s: Server, copy: Template, live: Template)
    requires s.runtime.Some?
    ensures !UpdateRequired(s, live) ==>
              (UpdateRequired(Enriched(s, copy), live) <==> !Compatible(copy, live))
    ensures !Compatible(copy, live) ==> UpdateRequired(Enriched(s, copy), live)
  {
  }

  /** A server that gets everything from the registry is up to date after enrichment unless its
      template has an image but is not of type docker: enrichment leaves that image out. */
  lemma EnrichedBareServerIsUpToDateIff(t: Template)
    ensures UpdateRequired(Enriched(Server(map[], None, None, []), t), t) <==>
              t.runtime.image != "" && !IsDocker(t.runtime.kind)
  {
  }

  /** One event in the life of a server: a reconcile enriches it from what the ConfigMap holds, or
      the auto-update service looks at it and, if the fetch works and an update is required, tries
      to store the update. */
  datatype Step = Enrich(copy: Template) | Tick(fetched: bool, stored: bool)

  /** The events so far, the latest one outermost. */
  datatype Run = Start | Then(earlier: Run, step: Step)

  predicate Updates(s: Server, live: Template, step: Step)
    requires s.runtime.Some?
  {
    step.Tick? && step.fetched && step.stored && UpdateRequired(s, live)
  }

  function After(s: Server, live: Template, run: Run): (s': Server)
    requires s.runtime.Some?
    ensures s'.runtime.Some?
  {
    match run
    case Start => s
    case Then(earlier, step) =>
      var before := After(s, live, earlier);
      if step.Enrich? then Enriched(before, step.copy)
      else if Updates(before, live, step) then Applied(before, live)
      else before
  }

  function SuccessfulUpdates(s: Server, live: Template, run: Run): nat
    requires s.runtime.Some?
  {
    match run
    case Start => 0
    case Then(earlier, step) =>
      SuccessfulUpdates(s, live, earlier) + if Updates(After(s, live, earlier), live, step) then 1 else 0
  }

  /** How many reconciles of the run read a copy that contradicts the live template. */
  function Conflicts(live: Template, run: Run): nat {
    match run
    case Start => 0
    case Then(earlier, step) =>
      Conflicts(live, earlier) + if step.Enrich? && !Compatible(step.copy, live) then 1 else 0
  }

  /** A tick that fetches nothing, is refused or finds nothing to update leaves the server as it is. */
  lemma OtherTicksChangeNothing(s: Server, live: Template, run: Run, fetched: bool, stored: bool)
    requires s.runtime.Some? && !(fetched && stored && UpdateRequired(After(s, live, run), live))
    ensures var more := Then(run, Tick(fetched, stored));
            After(s, live, more) == After(s, live, run) &&
            SuccessfulUpdates(s, live, more) == SuccessfulUpdates(s, live, run)
  {
  }

  /** While the live template stays the same, the updates of any run are paid for by the update that
      was required at its start, if any, and by the reconciles that read a contradicting copy. */
  lemma {:induction false} UpdatesArePaidFor(s: Server, live: Template, run: Run)
    requires s.runtime.Some?
    ensures SuccessfulUpdates(s, live, run) + (if UpdateRequired(After(s, live, run), live) then 1 else 0) <=
            Conflicts(live, run) + if UpdateRequired(s, live) then 1 else 0
  {
    match run
    case Start =>
    case Then(earlier, step) =>
      var before := After(s, live, earlier);
      UpdatesArePaidFor(s, live, earlier);
      if step.Enrich? {
        EnrichmentKeepsUpToDateIff(before, step.copy, live);
      } else {
        ApplyingReachesAFixpoint(before, live);
      }
  }

  /** All reconciles of the run read this copy. */
  predicate AllFrom(run: Run, copy: Template) {
    match run
    case Start => true
    case Then(earlier, step) => (step.Enrich? ==> step.copy == copy) && AllFrom(earlier, copy)
  }

  lemma {:induction false} NoConflicts(run: Run, copy: Template, live: Template)
    requires AllFrom(run, copy) && Compatible(copy, live)
    ensures Conflicts(live, run) == 0
  {
    match run
    case Start =>
    case Then(earlier, _) => NoConflicts(earlier, copy, live);
  }

  /** n times a reconcile followed by a tick that gets through. */
  function Rounds(copy: Template, n: nat): (run: Run)
    ensures AllFrom(run, copy)
  {
    if n == 0 then Start else Then(Then(Rounds(copy, n - 1), Enrich(copy)), Tick(true, true))
  }

  lemma {:induction false} RoundsConflict(copy: Template, live: Template, n: nat)
    requires !Compatible(copy, live)
    ensures Conflicts(live, Rounds(copy, n)) == n
  {
    if n == 0 {
    } else {
      RoundsConflict(copy, live, n - 1);
    }
  }

  /** While a contradicting copy stays in the ConfigMap, every round is one more update: reconcile
      and auto-update undo each other's work for ever, although neither template changes. */
  lemma {:induction false} UpdatesWithoutEnd(s: Server, copy: Template, live: Template, n: nat)
    requires s.runtime.Some? && !Compatible(copy, live)
    ensures SuccessfulUpdates(s, live, Rounds(copy, n)) == n
  {
    if n == 0 {
    } else {
      UpdatesWithoutEnd(s, copy, live, n - 1);
      EnrichmentKeepsUpToDateIff(After(s, live, Rounds(copy, n - 1)), copy, live);
    }
  }

  /** The ConfigMap of the last synchronisation and a server.yaml edited since then: their digests
      differ, and a thousand rounds are a thousand updates. */
  lemma LaggingCopyUpdatesWithoutEnd(s: Server, t: Template)
    requires s.runtime.Some?
    ensures SuccessfulUpdates(s, t.(digest := "new"), Rounds(t.(digest := "old"), 1000)) == 1000
  {
    UpdatesWithoutEnd(s, t.(digest := "old"), t.(digest := "new"), 1000);
  }

  /** Any run of reconciles and ticks with two fixed templates updates at most once, for this and for
      every server, exactly if the two are compatible. */
  lemma UpdatesAtMostOnceIff(s: Server, copy: Template, live: Template)
    requires s.runtime.Some?
    ensures (forall run :: AllFrom(run, copy) ==> SuccessfulUpdates(s, live, run) <= 1) <==> Compatible(copy, live)
  {
    if Compatible(copy, live) {
      forall run | AllFrom(run, copy)
        ensures SuccessfulUpdates(s, live, run) <= 1
      {
        UpdatesArePaidFor(s, live, run);
        NoConflicts(run, copy, live);
      }
    } else {
      UpdatesWithoutEnd(s, copy, live, 2);
    }
  }
}
