/**
 The ports that pkg/services/resource_builder_service.go gives to the container, its probes, the
 Service and the Istio VirtualService, which choose them separately, and the renderer's rule for
 leaving the Service out (pkg/render/renderer.go).
 */
module Ports {
  import opened Wrappers

  datatype PortSpec = PortSpec(name: string, port: int, targetPort: int, protocol: string)

  datatype ContainerPort = ContainerPort(name: string, port: int, protocol: string)

  datatype ServicePort = ServicePort(name: string, port: int, targetPort: int, protocol: string)

  datatype Istio = Istio(enabled: bool, host: string)

  datatype Gateway = Gateway(enabled: bool, port: int, istio: Option<Istio>)

  datatype Runtime = Runtime(kind: string, port: int)

  /** The parts of an MCPServer spec that ports depend on. */
  datatype Spec = Spec(transport: Option<string>, gateway: Option<Gateway>, runtime: Option<Runtime>,
                       ports: seq<PortSpec>)
  {
    predicate Stdio() {
      transport == Some("stdio")
    }

    predicate GatewayOn() {
      gateway.Some? && gateway.value.enabled
    }

    predicate Binary() {
      runtime.Some? && runtime.value.kind == "binary"
    }

    predicate HiddenStdio() {
      Stdio() && !GatewayOn()
    }
  }

  function Target(p: PortSpec): int {
    if p.targetPort > 0 then p.targetPort else p.port
  }

  function OrDefault(port: int, default: int): int {
    if port == 0 then default else port
  }

  function Declared(p: PortSpec): ContainerPort {
    ContainerPort(p.name, Target(p), if p.protocol == "UDP" then "UDP" else "TCP")
  }

  /** collectContainerPorts as a value. */
  function Collected(s: Spec): (cs: seq<ContainerPort>)
    ensures cs == [] <==> s.HiddenStdio()
  {
    if s.HiddenStdio() then []
    else if s.ports != [] then seq(|s.ports|, i requires 0 <= i < |s.ports| => Declared(s.ports[i]))
    else if s.runtime.Some? && s.runtime.value.port > 0 then [ContainerPort("mcp", s.runtime.value.port, "TCP")]
    else [ContainerPort("mcp", 8080, "TCP")]
  }

  method CollectContainerPorts(s: Spec) returns (cs: seq<ContainerPort>)
    ensures cs == Collected(s)
  {
    cs := [];
    if s.transport.Some? && s.transport.value == "stdio" {
      if s.gateway.None? || !s.gateway.value.enabled {
        return;
      }
    }
    if |s.ports| > 0 {
      for i := 0 to |s.ports|
        invariant cs == Collected(s)[..i]
      {
        var p := s.ports[i];
        var target := p.port;
        if p.targetPort > 0 {
          target := p.targetPort;
        }
        var protocol := "TCP";
        if p.protocol != "" {
          if p.protocol == "UDP" {
            protocol := "UDP";
          }
        }
        cs := cs + [ContainerPort(p.name, target, protocol)];
      }
      return;
    }
    if s.runtime.Some? && s.runtime.value.port > 0 {
      cs := cs + [ContainerPort("mcp", s.runtime.value.port, "TCP")];
      return;
    }
    cs := cs + [ContainerPort("mcp", 8080, "TCP")];
  }

  /** Where traffic goes: a port means nothing without its protocol. */
  datatype Endpoint = Endpoint(port: int, protocol: string)

  function Declarations(cs: seq<ContainerPort>): set<Endpoint> {
    set i | 0 <= i < |cs| :: Endpoint(cs[i].port, cs[i].protocol)
  }

  function Targets(sp: seq<ServicePort>): set<Endpoint> {
    set i | 0 <= i < |sp| :: Endpoint(sp[i].targetPort, sp[i].protocol)
  }

  /** Where a built Service sends traffic to; a Service port and its target are equal. */
  function ServiceTargets(s: Spec): set<Endpoint> {
    if s.GatewayOn() then {Endpoint(OrDefault(s.gateway.value.port, 8080), "TCP")}
    else if s.HiddenStdio() then {Endpoint(8080, "TCP")}
    else Declarations(Collected(s))
  }

  lemma SameEndpoints(sp: seq<ServicePort>, cs: seq<ContainerPort>)
    requires |sp| == |cs|
    requires forall i :: 0 <= i < |cs| ==> sp[i] == ServicePort(cs[i].name, cs[i].port, cs[i].port, cs[i].protocol)
    ensures Targets(sp) == Declarations(cs)
  {
    forall e
      ensures e in Targets(sp) <==> e in Declarations(cs)
    {
      if e in Declarations(cs) {
        var i :| 0 <= i < |cs| && Endpoint(cs[i].port, cs[i].protocol) == e;
        assert Endpoint(sp[i].targetPort, sp[i].protocol) == e;
      }
      if e in Targets(sp) {
        var i :| 0 <= i < |sp| && Endpoint(sp[i].targetPort, sp[i].protocol) == e;
        assert Endpoint(cs[i].port, cs[i].protocol) == e;
      }
    }
  }

  /** BuildService: only the gateway port, or one service port for each collected one. */
  method BuildServicePorts(s: Spec) returns (sp: seq<ServicePort>)
    ensures |sp| >= 1
    ensures s.GatewayOn() ==>
              var port := OrDefault(s.gateway.value.port, 8080);
              sp == [ServicePort("gateway", port, port, "TCP")]
    ensures !s.GatewayOn() && !s.Stdio() ==>
              |sp| == |Collected(s)| &&
              forall i :: 0 <= i < |sp| ==>
                var c := Collected(s)[i];
                sp[i] == ServicePort(c.name, c.port, c.port, c.protocol)
    ensures Targets(sp) == ServiceTargets(s)
  {
    if s.gateway.Some? && s.gateway.value.enabled {
      var port := s.gateway.value.port;
      if port == 0 {
        port := 8080;
      }
      sp := [ServicePort("gateway", port, port, "TCP")];
      assert Endpoint(sp[0].targetPort, sp[0].protocol) == Endpoint(port, "TCP");
    } else {
      var cs := CollectContainerPorts(s);
      sp := [];
      for i := 0 to |cs|
        invariant |sp| == i
        invariant forall j :: 0 <= j < i ==> sp[j] == ServicePort(cs[j].name, cs[j].port, cs[j].port, cs[j].protocol)
      {
        sp := sp + [ServicePort(cs[i].name, cs[i].port, cs[i].port,
                                if cs[i].protocol != "" then cs[i].protocol else "TCP")];
      }
      SameEndpoints(sp, cs);
    }
    if |sp| == 0 {
      sp := [ServicePort("mcp", 8080, 8080, "TCP")];
      assert Endpoint(sp[0].targetPort, sp[0].protocol) == Endpoint(8080, "TCP");
    }
  }

  /** A container's declared ports and the port its TCP probes connect to. */
  datatype Container = Container(ports: seq<ContainerPort>, probe: Option<int>)

  /** The plain container reads the runtime without a nil test; the gateway variant does not. */
  predicate Buildable(s: Spec) {
    s.runtime.Some? || (s.GatewayOn() && s.Stdio())
  }

  /** buildContainer with its gateway and binary variants. */
  function BuildContainer(s: Spec): (c: Container)
    requires Buildable(s)
    ensures c.probe.Some? ==> exists i :: 0 <= i < |c.ports| && c.ports[i].port == c.probe.value
    ensures c.probe.None? <==> c.ports == []
  {
    if s.GatewayOn() && s.Stdio() then
      var port := OrDefault(s.gateway.value.port, 8000);
      var c := Container([ContainerPort("gateway", port, "TCP")], Some(port));
      assert c.ports[0].port == port;
      c
    else if s.Binary() then
      var port := OrDefault(s.runtime.value.port, 8080);
      var c := Container([ContainerPort("mcp", port, "TCP")], Some(port));
      assert c.ports[0].port == port;
      c
    else
      var cs := Collected(s);
      Container(cs, if |cs| > 0 then Some(cs[0].port) else None)
  }

  /** The renderer leaves the Service out for stdio without a gateway. */
  predicate ServiceRendered(s: Spec) {
    !s.HiddenStdio()
  }

  predicate VirtualServiceRendered(s: Spec) {
    s.gateway.Some? && s.gateway.value.istio.Some? && s.gateway.value.istio.value.enabled
    && s.gateway.value.istio.value.host != ""
  }

  /** The port that BuildVirtualService routes to. */
  function Destination(s: Spec): int {
    if s.GatewayOn() && s.gateway.value.port > 0 then s.gateway.value.port
    else if Collected(s) != [] then Collected(s)[0].port
    else 8080
  }

  // ---- In the fields of the spec ----------------------------------------------------------

  /** The ports of the spec count first, a positive target port before the port and UDP only by that name;
      then a positive port of the runtime, then 8080.  Stdio without a gateway has none. */
  lemma CollectedFromFields(s: Spec)
    ensures var cs := Collected(s);
            var hidden := s.transport == Some("stdio") && !(s.gateway.Some? && s.gateway.value.enabled);
            var runtimePort := if s.runtime.Some? then s.runtime.value.port else 0;
            && (hidden ==> cs == [])
            && (!hidden && s.ports != [] ==>
                  |cs| == |s.ports| && forall i :: 0 <= i < |cs| ==>
                    var p := s.ports[i];
                    && cs[i].name == p.name
                    && (p.targetPort > 0 ==> cs[i].port == p.targetPort)
                    && (p.targetPort <= 0 ==> cs[i].port == p.port)
                    && cs[i].protocol == if p.protocol == "UDP" then "UDP" else "TCP")
            && (!hidden && s.ports == [] && runtimePort > 0 ==> cs == [ContainerPort("mcp", runtimePort, "TCP")])
            && (!hidden && s.ports == [] && runtimePort <= 0 ==> cs == [ContainerPort("mcp", 8080, "TCP")])
  {
  }

  /** A stdio gateway declares and probes the gateway's port or 8000, a binary the runtime's port or 8080, and
      any other container what was collected, of which the first is probed. */
  lemma ContainerFromFields(s: Spec)
    requires s.runtime.Some? || (s.transport == Some("stdio") && s.gateway.Some? && s.gateway.value.enabled)
    ensures var c := BuildContainer(s);
            var gateway := s.transport == Some("stdio") && s.gateway.Some? && s.gateway.value.enabled;
            && (gateway ==> var port := if s.gateway.value.port == 0 then 8000 else s.gateway.value.port;
                            c == Container([ContainerPort("gateway", port, "TCP")], Some(port)))
            && (!gateway && s.runtime.value.kind == "binary" ==>
                  var port := if s.runtime.value.port == 0 then 8080 else s.runtime.value.port;
                  c == Container([ContainerPort("mcp", port, "TCP")], Some(port)))
            && (!gateway && s.runtime.value.kind != "binary" ==>
                  c.ports == Collected(s) && c.probe == if c.ports == [] then None else Some(c.ports[0].port))
  {
  }

  /** The Service targets the gateway's port if a gateway is on, else what was collected, and never nothing;
      the VirtualService routes to the gateway's port or the first collected one. */
  lemma ServiceFromFields(s: Spec)
    ensures var on := s.gateway.Some? && s.gateway.value.enabled;
            && (on ==> ServiceTargets(s) ==
                         {Endpoint(if s.gateway.value.port == 0 then 8080 else s.gateway.value.port, "TCP")})
            && (!on && Collected(s) == [] ==> ServiceTargets(s) == {Endpoint(8080, "TCP")} && Destination(s) == 8080)
            && (!on ==> forall e :: e in ServiceTargets(s) && Collected(s) != [] <==>
                          exists i :: 0 <= i < |Collected(s)| &&
                                      (Collected(s)[i].port, Collected(s)[i].protocol) == (e.port, e.protocol))
            && (on && s.gateway.value.port > 0 ==> Destination(s) == s.gateway.value.port)
            && (!(on && s.gateway.value.port > 0) && Collected(s) != [] ==> Destination(s) == Collected(s)[0].port)
  {
    assert forall i :: 0 <= i < |Collected(s)| ==>
      Endpoint(Collected(s)[i].port, Collected(s)[i].protocol) in Declarations(Collected(s));
  }

  /** Stdio without a gateway has no Service; a VirtualService needs Istio switched on and a host. */
  lemma RenderedFromFields(s: Spec)
    ensures ServiceRendered(s) <==> s.transport != Some("stdio") || (s.gateway.Some? && s.gateway.value.enabled)
    ensures VirtualServiceRendered(s) <==>
              s.gateway.Some? && s.gateway.value.istio.Some? && s.gateway.value.istio.value.enabled &&
              s.gateway.value.istio.value.host != ""
  {
  }

  // ---- Agreement --------------------------------------------------------------------------

  /** Everything that the rendered Service targets is declared by the rendered container. */
  predicate ServiceReachesContainer(s: Spec)
    requires Buildable(s)
  {
    ServiceRendered(s) ==> ServiceTargets(s) <= Declarations(BuildContainer(s).ports)
  }

  /** Some port of the spec is this TCP endpoint; everything that is not called UDP is TCP. */
  predicate ServesTcp(s: Spec, port: int) {
    exists i :: 0 <= i < |s.ports| && Target(s.ports[i]) == port && s.ports[i].protocol != "UDP"
  }

  /** What a user can check in the spec: the container's and the Service's defaults meet. */
  predicate PortsAreConsistent(s: Spec)
    requires Buildable(s)
  {
    if s.Stdio() then !s.GatewayOn() || s.gateway.value.port != 0
    else if s.GatewayOn() then
      var port := OrDefault(s.gateway.value.port, 8080);
      if s.Binary() then port == OrDefault(s.runtime.value.port, 8080)
      else if s.ports != [] then ServesTcp(s, port)
      else port == if s.runtime.value.port > 0 then s.runtime.value.port else 8080
    else
      s.Binary() ==>
        if s.ports != [] then
          forall i :: 0 <= i < |s.ports| ==>
            Target(s.ports[i]) == OrDefault(s.runtime.value.port, 8080) && s.ports[i].protocol != "UDP"
        else s.runtime.value.port >= 0
  }

  lemma CollectedDeclarations(s: Spec, e: Endpoint)
    requires !s.HiddenStdio() && s.ports != []
    ensures e in Declarations(Collected(s)) <==>
              exists i :: 0 <= i < |s.ports| && Target(s.ports[i]) == e.port &&
                          e.protocol == if s.ports[i].protocol == "UDP" then "UDP" else "TCP"
  {
    var cs := Collected(s);
    if e in Declarations(cs) {
      var i :| 0 <= i < |cs| && Endpoint(cs[i].port, cs[i].protocol) == e;
      assert Target(s.ports[i]) == e.port;
    }
    if i :| 0 <= i < |s.ports| && Target(s.ports[i]) == e.port &&
            e.protocol == if s.ports[i].protocol == "UDP" then "UDP" else "TCP" {
      assert Endpoint(cs[i].port, cs[i].protocol) == e;
    }
  }

  lemma CollectedTcp(s: Spec, port: int)
    requires !s.HiddenStdio() && s.ports != []
    ensures Endpoint(port, "TCP") in Declarations(Collected(s)) <==> ServesTcp(s, port)
  {
    CollectedDeclarations(s, Endpoint(port, "TCP"));
  }

  lemma OneDeclaration(cs: seq<ContainerPort>)
    requires |cs| == 1
    ensures Declarations(cs) == {Endpoint(cs[0].port, cs[0].protocol)}
  {
  }

  lemma BinaryCoversIff(s: Spec)
    requires s.runtime.Some? && !s.HiddenStdio() && s.ports != [] && !s.GatewayOn()
    ensures var proxy := OrDefault(s.runtime.value.port, 8080);
            Declarations(Collected(s)) <= {Endpoint(proxy, "TCP")} <==>
              forall i :: 0 <= i < |s.ports| ==> Target(s.ports[i]) == proxy && s.ports[i].protocol != "UDP"
  {
    var proxy := OrDefault(s.runtime.value.port, 8080);
    forall i | 0 <= i < |s.ports|
      ensures var protocol := if s.ports[i].protocol == "UDP" then "UDP" else "TCP";
              Endpoint(Target(s.ports[i]), protocol) in Declarations(Collected(s))
    {
      var protocol := if s.ports[i].protocol == "UDP" then "UDP" else "TCP";
      CollectedDeclarations(s, Endpoint(Target(s.ports[i]), protocol));
    }
    forall e | e in Declarations(Collected(s))
      ensures exists i :: 0 <= i < |s.ports| && Target(s.ports[i]) == e.port &&
                          e.protocol == if s.ports[i].protocol == "UDP" then "UDP" else "TCP"
    {
      CollectedDeclarations(s, e);
    }
  }

  /** Over all specs, the Service and the container agree exactly under that condition. */
  lemma ServiceReachesContainerIff(s: Spec)
    requires Buildable(s)
    ensures ServiceReachesContainer(s) <==> PortsAreConsistent(s)
  {
    var c := BuildContainer(s);
    if |c.ports| == 1 {
      OneDeclaration(c.ports);
    }
    if !s.HiddenStdio() {
      if s.ports == [] {
        OneDeclaration(Collected(s));
      } else if s.GatewayOn() {
        CollectedTcp(s, OrDefault(s.gateway.value.port, 8080));
      } else {
        BinaryCoversIff(s);
      }
    }
  }

  /** The first port of the spec, if there is one, is also served over TCP. */
  predicate FirstServesTcp(s: Spec) {
    s.ports == [] || ServesTcp(s, Target(s.ports[0]))
  }

  lemma FirstCollected(s: Spec)
    requires !s.HiddenStdio()
    ensures Endpoint(Collected(s)[0].port, "TCP") in Declarations(Collected(s)) <==> FirstServesTcp(s)
  {
    if s.ports == [] {
      OneDeclaration(Collected(s));
    } else {
      CollectedTcp(s, Target(s.ports[0]));
    }
  }

  /** A rendered VirtualService, which routes HTTP, routes to a port of a rendered Service exactly if a
      Service is rendered and the port it chose, which is the first collected one unless a gateway port
      is set, is the gateway's default or is served over TCP. */
  lemma VirtualServiceReachesServiceIff(s: Spec)
    requires VirtualServiceRendered(s)
    ensures ServiceRendered(s) && Endpoint(Destination(s), "TCP") in ServiceTargets(s) <==>
              !s.HiddenStdio() &&
              if s.GatewayOn()
              then s.gateway.value.port > 0 || OrDefault(s.gateway.value.port, 8080) == Collected(s)[0].port
              else FirstServesTcp(s)
  {
    if !s.HiddenStdio() {
      FirstCollected(s);
    }
  }

  /** Without gateway, binary runtime and stdio the Service targets exactly what the container declares;
      probe and route reach it exactly if the first port is served over TCP. */
  lemma PlainServersAgreeIff(s: Spec)
    requires s.runtime.Some? && !s.GatewayOn() && !s.Binary() && !s.Stdio()
    ensures ServiceTargets(s) == Declarations(BuildContainer(s).ports)
    ensures BuildContainer(s).probe == Some(Destination(s))
    ensures Endpoint(Destination(s), "TCP") in ServiceTargets(s) <==> FirstServesTcp(s)
  {
    FirstCollected(s);
  }

  /** A first port declared for UDP is probed, and routed to, over TCP. */
  lemma UdpPortIsProbedOverTcp(s: Spec, p: PortSpec)
    requires s.runtime.Some? && !s.GatewayOn() && !s.Binary() && !s.Stdio()
    requires s.ports == [p] && p.protocol == "UDP"
    ensures BuildContainer(s).probe == Some(Target(p))
    ensures Endpoint(Target(p), "TCP") !in Declarations(BuildContainer(s).ports)
  {
    PlainServersAgreeIff(s);
  }

  /** The two gateway defaults differ, so a stdio gateway with no port set is unreachable. */
  lemma DefaultGatewayIsUnreachable(s: Spec)
    requires s.Stdio() && s.GatewayOn() && s.gateway.value.port == 0
    ensures ServiceTargets(s) == {Endpoint(8080, "TCP")}
    ensures Declarations(BuildContainer(s).ports) == {Endpoint(8000, "TCP")}
  {
  }
}
