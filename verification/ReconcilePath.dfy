/**
 The path of MCPServerReconciler.Reconcile from fetching the object to rendering, with the
 enrichment gate of controllers/mcpserver_controller.go and the registry check of
 pkg/services/validation_service.go.
 */
module ReconcilePath {
  import opened Conditions
  import Naming
  import opened Templates
  import opened Wrappers

  datatype Kind = Ready | RegistryFetched

  datatype Object = Object(name: string, registry: Option<Naming.RegistryRef>, deleting: bool, finalizer: bool,
                           server: Server, conditions: seq<Condition<Kind>>)
  {
    function RegistryName(): string {
      if registry.Some? then registry.value.Resolved() else ""
    }

    function ServerName(): string {
      if registry.None? then "" else if registry.value.serverName != "" then registry.value.serverName else name
    }

    /** Spec.Registry.Name filled in from the deprecated field. */
    function Normalized(): Object {
      if registry.Some? && registry.value.name == ""
      then this.(registry := Some(registry.value.(name := registry.value.registry)))
      else this
    }
  }

  /** What the clock, the API server, the ConfigMap and the rest of the validator answer in one
      reconcile. */
  datatype Env = Env(now: int, normalizeOk: bool, finalizerOk: bool, cache: CacheRead, patchOk: bool,
                     statusOk: bool, otherwiseValid: bool, quotasOk: bool)

  datatype Exit = NormalizeFailed | NilRuntime | FinalizerFailed | Deleting
                | CacheMissing | PatchFailed | Requeued
                | ValidationFailed | QuotaExceeded | Rendering

  predicate ValidRegistry(r: Option<Naming.RegistryRef>) {
    && r.Some?
    && (r.value.name != "" || r.value.registry != "")
    && |r.value.name| <= 253 && |r.value.registry| <= 253 && |r.value.serverName| <= 253
  }

  predicate InGate(exit: Exit) {
    exit in {CacheMissing, PatchFailed, Requeued}
  }

  /** What is left of a reconcile behind the gate, up to rendering. */
  function Validated(o: Object, e: Env): Exit {
    if !ValidRegistry(o.registry) || !e.otherwiseValid then ValidationFailed
    else if !e.quotasOk then QuotaExceeded
    else Rendering
  }

  /** The conditions that an exit leaves behind.  Only some exits write the status, and a patch of the
      object itself cannot change it, since it is a subresource. */
  function Reported(cs: seq<Condition<Kind>>, exit: Exit, e: Env): seq<Condition<Kind>> {
    if !e.statusOk then cs
    else
      match exit
      case CacheMissing => WithCondition(cs, RegistryFetched, False, "CacheMissing", "", e.now)
      case ValidationFailed => WithCondition(cs, Ready, False, "ValidationFailed", "", e.now)
      case QuotaExceeded => WithCondition(cs, Ready, False, "TenantValidationFailed", "", e.now)
      case _ => cs
  }

  /** Whether the object goes through the enrichment gate. */
  predicate FacesGate(o: Object) {
    o.RegistryName() != "" && o.ServerName() != ""
  }

  /** Enriching the object would change nothing. */
  predicate AlreadyEnriched(o: Object, e: Env) {
    e.cache.Parsed? && Enriched(o.server, e.cache.template) == o.server
  }

  /** What one reconcile makes of the object and how it ends.  With the guard, which the source does
      not have, an object that is already enriched passes the gate by. */
  function Path(guard: bool, o: Object, e: Env): (Object, Exit) {
    var n := o.Normalized();
    if n != o && !e.normalizeOk then (o, NormalizeFailed)
    else if n.server.runtime.None? then (n, NilRuntime)
    else if !n.finalizer && !e.finalizerOk then (n, FinalizerFailed)
    else
      var f := n.(finalizer := true);
      if f.deleting then (f, Deleting)
      else if !FacesGate(f) || (guard && AlreadyEnriched(f, e)) then (f, Validated(f, e))
      else if e.cache.Unreadable? then (f, CacheMissing)
      else if !e.patchOk then (f, PatchFailed)
      else (f.(server := Enriched(f.server, e.cache.template)), Requeued)
  }

  /** What one reconcile stores and how it ends. */
  function PassWith(guard: bool, o: Object, e: Env): (Object, Exit) {
    var (o', exit) := Path(guard, o, e);
    (o'.(conditions := Reported(o.conditions, exit, e)), exit)
  }

  function Pass(o: Object, e: Env): (Object, Exit) {
    PassWith(false, o, e)
  }

  /** The stored MCPServer, and the reconciles that work on it. */
  class Store {
    var stored: Object

    constructor (o: Object)
      ensures stored == o
    {
      stored := o;
    }

    /** Sets a condition to False and writes the status; a refused write is only logged. */
    method Report(kind: Kind, reason: string, e: Env)
      modifies this
      ensures var cs := WithCondition(old(stored).conditions, kind, False, reason, "", e.now);
              stored == if e.statusOk then old(stored).(conditions := cs) else old(stored)
    {
      var slice := new Resource<Kind>(stored.conditions);
      slice.SetCondition(kind, False, reason, "", e.now);
      if e.statusOk {
        stored := stored.(conditions := slice.conditions);
      }
    }

    /** The registry check, the rest of the validator and the tenant quotas. */
    method Validate(e: Env) returns (exit: Exit)
      modifies this
      ensures exit == Validated(old(stored), e)
      ensures stored == old(stored).(conditions := Reported(old(stored).conditions, exit, e))
    {
      if !(ValidRegistry(stored.registry) && e.otherwiseValid) {
        Report(Ready, "ValidationFailed", e);
        return ValidationFailed;
      }
      if !e.quotasOk {
        Report(Ready, "TenantValidationFailed", e);
        return QuotaExceeded;
      }
      exit := Rendering;
    }

    /** The gate: every way out of it ends the reconcile. */
    method EnrichAndPatch(copy: Object, e: Env) returns (exit: Exit)
      requires copy == stored && copy.registry.Some? && copy.registry.value.name != ""
      modifies this
      ensures exit == if e.cache.Unreadable? then CacheMissing else if e.patchOk then Requeued else PatchFailed
      ensures stored == (if exit == Requeued then copy.(server := Enriched(copy.server, e.cache.template)) else copy)
                        .(conditions := Reported(copy.conditions, exit, e))
    {
      var mcpServer := new MCPServer(copy.server);
      var ok := mcpServer.EnrichFromCache(copy.registry.value.name, e.cache);
      if !ok {
        Report(RegistryFetched, "CacheMissing", e);
        return CacheMissing;
      }
      if !e.patchOk {
        return PatchFailed;
      }
      stored := copy.(server := Server(mcpServer.annotations, mcpServer.runtime, mcpServer.transport, mcpServer.ports));
      exit := Requeued;
    }

    method Reconcile(e: Env) returns (exit: Exit)
      modifies this
      ensures (stored, exit) == Pass(old(stored), e)
    {
      var copy := stored;
      var registryName, serverName := "", "";
      if copy.registry.Some? {
        var ref := copy.registry.value;
        if ref.name != "" {
          registryName := ref.name;
        } else if ref.registry != "" {
          registryName := ref.registry;
        }
        serverName := if ref.serverName != "" then ref.serverName else copy.name;
        if ref.name == "" && ref.registry != "" {
          copy := copy.(registry := Some(ref.(name := ref.registry)));
          if !e.normalizeOk {
            return NormalizeFailed;
          }
          stored := copy;
          registryName := ref.registry;
        }
      }
      if copy.server.runtime.None? {
        // The log line at the start reads the runtime type without a nil test.
        return NilRuntime;
      }
      if !copy.finalizer {
        copy := copy.(finalizer := true);
        if !e.finalizerOk {
          return FinalizerFailed;
        }
        stored := copy;
      }
      if copy.deleting {
        return Deleting;
      }
      if registryName != "" && serverName != "" {
        exit := EnrichAndPatch(copy, e);
        return;
      }
      exit := Validate(e);
    }
  }

  /** A server that gets past the first API calls enters the gate exactly if a registry name
      resolves, and it leaves the reconcile there; otherwise the registry check stops it. */
  lemma GateIsEnteredIff(o: Object, e: Env)
    requires o.name != ""
    requires e.normalizeOk && e.finalizerOk && o.server.runtime.Some? && !o.deleting
    ensures InGate(Pass(o, e).1) <==> o.RegistryName() != ""
    ensures !InGate(Pass(o, e).1) ==> Pass(o, e).1 == ValidationFailed
  {
  }

  /** The gate needs the names of a registry and of a server in it; the object's own name will do for that. */
  lemma GateNeedsNames(o: Object)
    ensures FacesGate(o) <==>
              o.registry.Some? && (o.registry.value.name != "" || o.registry.value.registry != "") &&
              (o.registry.value.serverName != "" || o.name != "")
  {
  }

  /** Behind the gate: a registry must be named by either field, with at most 253 characters in each of the
      three, and the rest of the validator comes before the quotas. */
  lemma ValidatedWhere(o: Object, e: Env)
    ensures var valid := o.registry.Some? && e.otherwiseValid &&
                         var r := o.registry.value;
                         && |r.name| <= 253 && |r.registry| <= 253 && |r.serverName| <= 253
                         && !(r.name == "" && r.registry == "");
            && (Validated(o, e) == ValidationFailed <==> !valid)
            && (Validated(o, e) == QuotaExceeded <==> valid && !e.quotasOk)
            && (Validated(o, e) == Rendering <==> valid && e.quotasOk)
  {
  }

  lemma QuotaReport(cs: seq<Condition<Kind>>, e: Env)
    requires e.statusOk
    ensures var cs' := Reported(cs, QuotaExceeded, e);
            var ready := Find(cs', Ready);
            && ready.Some? && ready.value.status == False && ready.value.reason == "TenantValidationFailed"
            && Find(cs', RegistryFetched) == Find(cs, RegistryFetched)
  {
    TransitionMovesOnChange(cs, Ready, False, "TenantValidationFailed", "", e.now, RegistryFetched);
  }

  /** Where a reconcile ends, in the object's own fields.  A deleted object leaves before the gate, and
      behind the gate there is no registry left to name. */
  lemma EndsWhere(o: Object, e: Env)
    requires o.name != ""
    ensures var deprecated := o.registry.Some? && o.registry.value.name == "" && o.registry.value.registry != "";
            var named := o.registry.Some? && (o.registry.value.name != "" || o.registry.value.registry != "");
            var begun := (deprecated ==> e.normalizeOk) && o.server.runtime.Some?;
            var alive := begun && (o.finalizer || e.finalizerOk) && !o.deleting;
            var exit := Pass(o, e).1;
            && (exit == NormalizeFailed <==> deprecated && !e.normalizeOk)
            && (exit == NilRuntime <==> (deprecated ==> e.normalizeOk) && o.server.runtime.None?)
            && (exit == FinalizerFailed <==> begun && !o.finalizer && !e.finalizerOk)
            && (exit == Deleting <==> begun && (o.finalizer || e.finalizerOk) && o.deleting)
            && (exit == CacheMissing <==> alive && named && e.cache.Unreadable?)
            && (exit == PatchFailed <==> alive && named && e.cache.Parsed? && !e.patchOk)
            && (exit == Requeued <==> alive && named && e.cache.Parsed? && e.patchOk)
            && (exit == ValidationFailed <==> alive && !named)
  {
  }

  /** What a reconcile stores, apart from conditions and the server: the deprecated name is copied unless that
      update fails, and the finalizer is there once its update was accepted. */
  lemma StoresWhat(o: Object, e: Env)
    requires o.name != ""
    ensures var (o', exit) := Pass(o, e);
            && (o'.name, o'.deleting) == (o.name, o.deleting)
            && (o'.registry == if exit != NormalizeFailed && o.registry.Some? && o.registry.value.name == ""
                               then Some(o.registry.value.(name := o.registry.value.registry)) else o.registry)
            && (o'.finalizer <==> o.finalizer || exit !in {NormalizeFailed, NilRuntime, FinalizerFailed})
  {
  }

  /** The server changes only where the reconcile asks for another one. */
  lemma EnrichesIffRequeued(o: Object, e: Env)
    ensures var (o', exit) := Pass(o, e);
            && (exit == Requeued ==> e.cache.Parsed? && o'.server == Enriched(o.server, e.cache.template))
            && (exit != Requeued ==> o'.server == o.server)
  {
  }

  /** Which exits report, and what; a report does not touch the other condition. */
  lemma ReportsWhat(o: Object, e: Env)
    ensures var (o', exit) := Pass(o, e);
            var fetched, ready := Find(o'.conditions, RegistryFetched), Find(o'.conditions, Ready);
            && (exit !in {CacheMissing, ValidationFailed, QuotaExceeded} || !e.statusOk ==>
                  o'.conditions == o.conditions)
            && (exit == CacheMissing && e.statusOk ==>
                  fetched.Some? && fetched.value.status == False && fetched.value.reason == "CacheMissing" &&
                  ready == Find(o.conditions, Ready))
            && (exit == ValidationFailed && e.statusOk ==>
                  ready.Some? && ready.value.status == False && ready.value.reason == "ValidationFailed" &&
                  fetched == Find(o.conditions, RegistryFetched))
  {
    TransitionMovesOnChange(o.conditions, RegistryFetched, False, "CacheMissing", "", e.now, Ready);
    TransitionMovesOnChange(o.conditions, Ready, False, "ValidationFailed", "", e.now, RegistryFetched);
  }

  lemma PassStopsBeforeRendering(o: Object, e: Env)
    requires o.name != ""
    ensures Pass(o, e).1 !in {QuotaExceeded, Rendering} && Pass(o, e).0.name == o.name
  {
  }

  /** One event in the life of the object: anybody writes it, but not its status, or it is
      reconciled. */
  datatype Step = Edit(edited: Object) | Reconcile(env: Env)

  function After(o: Object, steps: seq<Step>): Object {
    if steps == [] then o
    else
      var before := After(o, steps[..|steps| - 1]);
      match steps[|steps| - 1]
      case Edit(edited) => edited.(name := o.name, conditions := before.conditions)
      case Reconcile(e) => Pass(before, e).0
  }

  /** No run of reconciles and edits, with any answers, ever reaches rendering. */
  lemma {:induction false} NeverRenders(o: Object, steps: seq<Step>, e: Env)
    requires o.name != ""
    ensures After(o, steps).name == o.name
    ensures Pass(After(o, steps), e).1 !in {QuotaExceeded, Rendering}
  {
    if steps == [] {
    } else {
      NeverRenders(o, steps[..|steps| - 1], e);
      if steps[|steps| - 1].Reconcile? {
        PassStopsBeforeRendering(After(o, steps[..|steps| - 1]), steps[|steps| - 1].env);
      }
    }
    PassStopsBeforeRendering(After(o, steps), e);
  }

  /** Nothing but RegistryFetched=False is ever stored for the registry. */
  lemma ReportsKeepMissing(cs: seq<Condition<Kind>>, exit: Exit, e: Env)
    ensures var before, after := Find(cs, RegistryFetched), Find(Reported(cs, exit, e), RegistryFetched);
            || after == before
            || (after.Some? && after.value.status == False &&
                after.value.since == if before.Some? && before.value.status == False then before.value.since else e.now)
  {
    TransitionMovesOnChange(cs, RegistryFetched, False, "CacheMissing", "", e.now, Ready);
    TransitionMovesOnChange(cs, Ready, False, "ValidationFailed", "", e.now, RegistryFetched);
    TransitionMovesOnChange(cs, Ready, False, "TenantValidationFailed", "", e.now, RegistryFetched);
  }

  /** A missing ConfigMap is reported for ever: no run of reconciles and edits ever stores
      RegistryFetched=True, and once it is False neither the status nor its transition time changes
      again, even after the server has been enriched. */
  lemma {:induction false} MissingIsNeverCleared(o: Object, steps: seq<Step>)
    ensures var first, last := Find(o.conditions, RegistryFetched), Find(After(o, steps).conditions, RegistryFetched);
            && (last.Some? && last.value.status == True ==> last == first)
            && (first.Some? && first.value.status == False ==>
                  last.Some? && last.value.status == False && last.value.since == first.value.since)
  {
    if steps == [] {
    } else {
      MissingIsNeverCleared(o, steps[..|steps| - 1]);
      if steps[|steps| - 1].Reconcile? {
        var before, e := After(o, steps[..|steps| - 1]), steps[|steps| - 1].env;
        ReportsKeepMissing(before.conditions, Pass(before, e).1, e);
      }
    }
  }

  /** The object after `n` passes in the same environment. */
  function Passes(guard: bool, o: Object, e: Env, n: nat): Object {
    if n == 0 then o else PassWith(guard, Passes(guard, o, e, n - 1), e).0
  }

  lemma {:induction false} PassesStay(guard: bool, o: Object, e: Env, n: nat, x: Object)
    requires PassWith(guard, o, e).0 == x && PassWith(guard, x, e).0 == x
    ensures Passes(guard, o, e, n + 1) == x
  {
    if n == 0 {
      assert Passes(guard, o, e, 0) == o;
    } else {
      PassesStay(guard, o, e, n - 1, x);
    }
  }

  lemma HealthyPass(o: Object, t: Template, e: Env)
    requires o.name != "" && o.RegistryName() != "" && o.server.runtime.Some? && !o.deleting
    requires e.normalizeOk && e.finalizerOk && e.patchOk && e.cache == Parsed(t)
    ensures Pass(o, e) == (o.Normalized().(finalizer := true, server := Enriched(o.server, t)), Requeued)
  {
  }

  /** With everything in order, the first reconcile enriches the server, and from then on each
      one finds nothing to change and asks for another one all the same. */
  lemma RequeuesForever(o: Object, t: Template, e: Env, n: nat)
    requires o.name != "" && o.RegistryName() != "" && o.server.runtime.Some? && !o.deleting
    requires e.normalizeOk && e.finalizerOk && e.patchOk && e.cache == Parsed(t)
    ensures Pass(o, e).1 == Requeued && Pass(Passes(false, o, e, n + 1), e).1 == Requeued
    ensures Passes(false, o, e, n + 1) == o.Normalized().(finalizer := true, server := Enriched(o.server, t))
  {
    var enriched := o.Normalized().(finalizer := true, server := Enriched(o.server, t));
    HealthyPass(o, t, e);
    EnrichmentIsIdempotent(o.server, t);
    HealthyPass(enriched, t, e);
    PassesStay(false, o, e, n, enriched);
  }

  // ---- The run that was intended ----------------------------------------------------------

  /** Everything else is in order: the API calls work, the ConfigMap holds `t`, and the object, apart
      from what the gate is about, would be rendered. */
  predicate Healthy(o: Object, t: Template, e: Env) {
    && o.name != "" && o.RegistryName() != "" && o.server.runtime.Some? && !o.deleting
    && e.normalizeOk && e.finalizerOk && e.patchOk && e.cache == Parsed(t)
    && e.otherwiseValid && e.quotasOk && ValidRegistry(o.Normalized().registry)
  }

  lemma HealthyGuardedPass(o: Object, t: Template, e: Env)
    requires Healthy(o, t, e)
    ensures PassWith(true, o, e) ==
            (o.Normalized().(finalizer := true, server := Enriched(o.server, t)),
             if Enriched(o.server, t) == o.server then Rendering else Requeued)
  {
  }

  lemma EnrichedStaysHealthy(o: Object, t: Template, e: Env)
    requires Healthy(o, t, e)
    ensures var o' := o.Normalized().(finalizer := true, server := Enriched(o.server, t));
            Healthy(o', t, e) && Enriched(o'.server, t) == o'.server && o'.Normalized() == o'
  {
    EnrichmentIsIdempotent(o.server, t);
  }

  /** With an already-enriched guard in front of the gate the run goes as intended: the first pass
      enriches and requeues, unless there is nothing to enrich, and every later one changes nothing
      and renders. */
  lemma GuardedRunRenders(o: Object, t: Template, e: Env, n: nat)
    requires Healthy(o, t, e)
    ensures PassWith(true, o, e).1 == if Enriched(o.server, t) == o.server then Rendering else Requeued
    ensures PassWith(true, Passes(true, o, e, n + 1), e).1 == Rendering
    ensures Passes(true, o, e, n + 1) == o.Normalized().(finalizer := true, server := Enriched(o.server, t))
  {
    var enriched := o.Normalized().(finalizer := true, server := Enriched(o.server, t));
    HealthyGuardedPass(o, t, e);
    EnrichedStaysHealthy(o, t, e);
    HealthyGuardedPass(enriched, t, e);
    PassesStay(true, o, e, n, enriched);
  }
}
