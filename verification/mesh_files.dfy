/**
 What the files generated from a plan contain, said of the bundle and the plan's routes: which services the
 directory names and what it lists for each, what the TNG egress listeners do, which protocol a server
 route speaks and which keys the gateway trusts.
 */
module MeshFiles {
  import opened Results
  import opened Ports
  import opened MeshSchema
  import opened MeshPlanner
  import opened MeshPlanSafety
  import opened MeshRouting
  import G = GatewayConfig
  import Text

  // ---------------------------------------------------------------- the directory

  /** The directory lists this route for its service: its local port, its mode, and the protocol of a mesh
      route but none of a connect route. */
  ghost predicate Lists(dir: ServiceDirectory, r: PeerRoute) {
    && r.service in dir
    && exists d :: d in dir[r.service] && d.port == r.local
         && d.mode == (if r.connectMode then ConnectMode else MeshMode)
         && d.protocol == (if r.connectMode then None else Some(r.protocol))
  }

  lemma {:induction false} DirectoryNames(services: seq<MeshEntry>, selfId: string, plan: RoutePlan, id: string)
    ensures id in DirectoryOf(services, selfId, plan)
       <==> && id != selfId && DirectoryPorts(id, plan.peerRoutes) != []
            && exists e :: e in services && e.id == id && e.service.Active()
    decreases |services|
  {
    if services != [] {
      var n := |services| - 1;
      assert services == services[..n] + [services[n]];
      DirectoryNames(services[..n], selfId, plan, id);
    }
  }

  lemma HasDirectoryPorts(routes: seq<PeerRoute>, r: PeerRoute)
    requires r in routes
    ensures AsDirectoryPort(r) in DirectoryPorts(r.service, routes)
  {
  }

  lemma SomeRoute(routes: seq<PeerRoute>, id: string)
    requires DirectoryPorts(id, routes) != []
    ensures exists r :: r in routes && r.service == id
  {
    var d := DirectoryPorts(id, routes)[0];
    assert d in DirectoryPorts(id, routes);
  }

  lemma ListedAs(dir: ServiceDirectory, r: PeerRoute)
    requires r.service in dir && AsDirectoryPort(r) in dir[r.service]
    ensures Lists(dir, r)
  {
  }

  lemma KnownService(services: seq<MeshEntry>, selfId: string, r: PeerRoute)
    requires RouteKnown(r, Peers(services, selfId))
    ensures r.service != selfId && exists e :: e in services && e.id == r.service && e.service.Active()
  {
    var e :| e in Peers(services, selfId) && RouteFor(r, AsPeer(e), r.remote);
  }

  lemma RouteListed(services: seq<MeshEntry>, selfId: string, plan: RoutePlan, r: PeerRoute)
    requires r in plan.peerRoutes && RouteKnown(r, Peers(services, selfId))
    ensures Lists(DirectoryOf(services, selfId, plan), r)
  {
    KnownService(services, selfId, r);
    HasDirectoryPorts(plan.peerRoutes, r);
    DirectoryNames(services, selfId, plan, r.service);
    DirectoryEntry(services, selfId, plan, r.service);
    ListedAs(DirectoryOf(services, selfId, plan), r);
  }

  /** The directory of a successful plan lists every route. */
  lemma EveryRouteListed(bundle: MeshBundle, selfId: string, registry: Registry, plan: RoutePlan)
    requires Plan(bundle, selfId, registry).Ok? && plan == Plan(bundle, selfId, registry).value.0
    ensures forall r :: r in plan.peerRoutes ==> Lists(DirectoryOf(bundle.services, selfId, plan), r)
  {
    PlanShape(bundle, selfId, registry);
    forall r | r in plan.peerRoutes ensures Lists(DirectoryOf(bundle.services, selfId, plan), r) {
      RouteListed(bundle.services, selfId, plan, r);
    }
  }

  /** An active service other than the guest that has a port. */
  ghost predicate Reachable(e: MeshEntry, id: string, selfId: string) {
    e.id == id && id != selfId && e.service.phase == "active" && e.service.ports != []
  }

  lemma NamedIsReachable(bundle: MeshBundle, selfId: string, plan: RoutePlan, id: string)
    requires forall r :: r in plan.peerRoutes ==> RouteKnown(r, Peers(bundle.services, selfId))
    requires id in DirectoryOf(bundle.services, selfId, plan)
    ensures exists e :: e in bundle.services && Reachable(e, id, selfId)
  {
    DirectoryNames(bundle.services, selfId, plan, id);
    SomeRoute(plan.peerRoutes, id);
    var r :| r in plan.peerRoutes && r.service == id;
    var e :| e in Peers(bundle.services, selfId) && r.remote in e.service.ports && RouteFor(r, AsPeer(e), r.remote);
    assert Reachable(e, id, selfId);
  }

  lemma ReachableIsNamed(bundle: MeshBundle, selfId: string, plan: RoutePlan, e: MeshEntry)
    requires forall p :: p in e.service.ports ==> PortRouted(e, p, plan.peerRoutes)
    requires e in bundle.services && Reachable(e, e.id, selfId)
    ensures e.id in DirectoryOf(bundle.services, selfId, plan)
  {
    assert PortRouted(e, e.service.ports[0], plan.peerRoutes);
    PeerHasPorts(e, plan.peerRoutes);
    DirectoryNames(bundle.services, selfId, plan, e.id);
  }

  /** It names exactly the active services other than the guest that have a port. */
  lemma NamedExactly(bundle: MeshBundle, selfId: string, registry: Registry, plan: RoutePlan, id: string)
    requires Plan(bundle, selfId, registry).Ok? && plan == Plan(bundle, selfId, registry).value.0
    ensures id in DirectoryOf(bundle.services, selfId, plan)
       <==> exists e :: e in bundle.services && Reachable(e, id, selfId)
  {
    PlanShape(bundle, selfId, registry);
    if id in DirectoryOf(bundle.services, selfId, plan) {
      NamedIsReachable(bundle, selfId, plan, id);
    }
    forall e | e in bundle.services && Reachable(e, id, selfId)
      ensures id in DirectoryOf(bundle.services, selfId, plan)
    {
      ReachableIsNamed(bundle, selfId, plan, e);
    }
  }

  lemma PeerHasPorts(e: MeshEntry, routes: seq<PeerRoute>)
    requires e.service.ports != [] && PortRouted(e, e.service.ports[0], routes)
    ensures DirectoryPorts(e.id, routes) != []
  {
    var r :| r in routes && RouteFor(r, AsPeer(e), e.service.ports[0]);
    HasDirectoryPorts(routes, r);
  }

  lemma {:induction false} ListedOnce(id: string, routes: seq<PeerRoute>)
    requires Distinct(Locals(routes))
    ensures PortsOnce(DirectoryPorts(id, routes))
    decreases |routes|
  {
    if routes != [] {
      var n := |routes| - 1;
      assert Locals(routes)[..n] == Locals(routes[..n]);
      ListedOnce(id, routes[..n]);
      var before := DirectoryPorts(id, routes[..n]);
      forall i | 0 <= i < |before| ensures before[i].port != routes[n].local {
        assert before[i] in before;
        var r :| r in routes[..n] && r.service == id && AsDirectoryPort(r) == before[i];
        EarlierLocalDiffers(routes, r);
      }
      if routes[n].service == id {
        OneMoreEntry(before, AsDirectoryPort(routes[n]));
      } else {
        assert DirectoryPorts(id, routes) == before;
      }
    }
  }

  ghost predicate PortsOnce(ports: seq<DirectoryPort>) {
    forall i, j :: 0 <= i < j < |ports| ==> ports[i].port != ports[j].port
  }

  lemma OneMoreEntry(ports: seq<DirectoryPort>, d: DirectoryPort)
    requires PortsOnce(ports) && forall i :: 0 <= i < |ports| ==> ports[i].port != d.port
    ensures PortsOnce(ports + [d])
  {
  }

  /** And it lists nothing else, and nothing twice. */
  lemma ListsOnlyRoutes(bundle: MeshBundle, selfId: string, registry: Registry, plan: RoutePlan, id: string)
    requires Plan(bundle, selfId, registry).Ok? && plan == Plan(bundle, selfId, registry).value.0
    requires id in DirectoryOf(bundle.services, selfId, plan)
    ensures var ports := DirectoryOf(bundle.services, selfId, plan)[id];
      && (forall i, j :: 0 <= i < j < |ports| ==> ports[i].port != ports[j].port)
      && forall d :: d in ports ==> exists r :: r in plan.peerRoutes && r.service == id && r.local == d.port
  {
    DirectoryEntry(bundle.services, selfId, plan, id);
    PlanRoutesApart(bundle, selfId, registry);
    ListedOnce(id, plan.peerRoutes);
    forall d | d in DirectoryPorts(id, plan.peerRoutes)
      ensures exists r :: r in plan.peerRoutes && r.service == id && r.local == d.port
    {
      var r :| r in plan.peerRoutes && r.service == id && AsDirectoryPort(r) == d;
    }
  }

  /** A text with something in it besides white space. */
  ghost predicate Given(t: Option<string>) {
    t.Some? && exists i :: 0 <= i < |t.value| && !Text.IsWhitespace(t.value[i])
  }

  /** A peer is dialled at its public address, or at its private one if it gives no public one. */
  ghost predicate DialledAt(e: MeshEntry, host: string) {
    if Given(e.service.publicIp) then e.service.publicIp == Some(host)
    else Given(e.service.privateIp) && e.service.privateIp == Some(host)
  }

  lemma AddressExactly(e: MeshEntry, host: string)
    ensures e.service.ReachableHost() == Some(host) <==> DialledAt(e, host)
  {
  }

  /** Every route dials an active service other than the guest, at its address and one of its ports. */
  lemma RoutesDialServices(bundle: MeshBundle, selfId: string, registry: Registry, plan: RoutePlan, r: PeerRoute)
    requires Plan(bundle, selfId, registry).Ok? && plan == Plan(bundle, selfId, registry).value.0
    requires r in plan.peerRoutes
    ensures exists e :: e in bundle.services && Reachable(e, r.service, selfId) && DialledAt(e, r.host)
                     && r.remote in e.service.ports
  {
    PlanShape(bundle, selfId, registry);
    var e :| e in Peers(bundle.services, selfId) && r.remote in e.service.ports && RouteFor(r, AsPeer(e), r.remote)
      && e.service.ReachableHost() == Some(r.host);
    AddressExactly(e, r.host);
    assert Reachable(e, r.service, selfId);
  }

  // ---------------------------------------------------------------- TNG egress

  /** The entry at `k` is the last one for the port. */
  ghost predicate LastFor(connect: seq<ConnectPort>, port: Port, k: int) {
    0 <= k < |connect| && connect[k].port == port && forall j :: k < j < |connect| ==> connect[j].port != port
  }

  lemma {:induction false} LastEntryDecides(connect: seq<ConnectPort>, port: Port)
    ensures forall k :: LastFor(connect, port, k) ==> EncryptionOf(connect, port) == connect[k].encryption
    ensures (forall k :: !LastFor(connect, port, k)) ==>
      EncryptionOf(connect, port) == RatsTls && forall cp :: cp in connect ==> cp.port != port
  {
    if connect != [] {
      var n := |connect| - 1;
      if connect[n].port == port {
        assert LastFor(connect, port, n);
      } else {
        LastEntryDecides(connect[..n], port);
        forall k ensures LastFor(connect, port, k) <==> LastFor(connect[..n], port, k) {
          assert k == n ==> !LastFor(connect, port, k);
        }
        assert connect == connect[..n] + [connect[n]];
      }
    }
  }

  /** What the egress listener of an own port does. */
  ghost predicate EgressFor(g: TngEgress, q: SelfRoute, service: MeshService, selfId: string, callers: seq<string>,
                            replicas: seq<string>) {
    && g.captureDst == q.port && g.listenPort == q.egress
    && (forall k :: LastFor(service.connect, q.port, k) ==> g.encryption == service.connect[k].encryption)
    && ((forall cp :: cp in service.connect ==> cp.port != q.port) ==> g.encryption == RatsTls)
    && g.shared == (if g.encryption == Ohttp && replicas != [] then Some(SharedKey(replicas, selfId)) else None)
    && (g.verify.None? <==> exists cp :: cp in service.connect && cp.port == q.port)
    && (g.verify.Some? ==> g.verify.value == callers)
  }

  /** The TNG file has one egress listener for each own route, in order: it captures the own port on the
      route's egress port, encrypts as the port's last connect entry says, shares its key exactly under OHTTP
      with replicas, and demands the attestation of all active peers exactly on mesh ports. */
  lemma EgressExactly(bundle: MeshBundle, selfId: string, service: MeshService, plan: RoutePlan, replicas: seq<string>)
    ensures var egress := TngConfigOf(bundle, selfId, service, plan, replicas).egress;
      && |egress| == |plan.selfRoutes|
      && forall i :: 0 <= i < |egress| ==>
           EgressFor(egress[i], plan.selfRoutes[i], service, selfId, Ids(Peers(bundle.services, selfId)), replicas)
  {
    forall i | 0 <= i < |plan.selfRoutes|
      ensures EgressFor(TngConfigOf(bundle, selfId, service, plan, replicas).egress[i], plan.selfRoutes[i], service,
                        selfId, Ids(Peers(bundle.services, selfId)), replicas)
    {
      LastEntryDecides(service.connect, plan.selfRoutes[i].port);
    }
  }

  /** Which reference values are said to be missing: those of a service that has none, or one whose Rekor entry
      cannot be rendered and hides behind no samples. */
  lemma TngFailureNames(bundle: MeshBundle, selfId: string, service: MeshService, plan: RoutePlan,
                        replicas: seq<string>)
    ensures match TngFailure(bundle, selfId, service, plan, replicas)
      case None => true
      case Some(MissingReferences(id)) => id !in bundle.samples && id !in bundle.rekor
      case Some(BadRekorPayload(id)) => id !in bundle.samples && id in bundle.rekor && !bundle.rekor[id]
      case Some(_) => false
  {
  }

  /** And one ingress listener for each peer route, in order: it sends what arrives at the route's ingress port
      to the peer's port, demands the reference values of that service, and attests the guest itself exactly
      on mesh routes. */
  lemma IngressExactly(bundle: MeshBundle, selfId: string, service: MeshService, plan: RoutePlan, replicas: seq<string>)
    ensures var ingress := TngConfigOf(bundle, selfId, service, plan, replicas).ingress;
      && |ingress| == |plan.peerRoutes|
      && forall i :: 0 <= i < |ingress| ==>
           var g, r := ingress[i], plan.peerRoutes[i];
           && g.inPort == r.ingress && g.outHost == r.host && g.outPort == r.remote && g.references == r.service
           && (g.attest <==> !r.connectMode)
  {
  }

  // ---------------------------------------------------------------- the gateway's file

  /** Own routes keep the protocol of their ports. */
  ghost predicate ProtocolsOf(routes: seq<SelfRoute>, mcpPorts: seq<Port>) {
    forall q :: q in routes ==> (q.protocol == Mcp <==> q.port in mcpPorts)
  }

  lemma {:induction false} OwnProtocols(ports: seq<Port>, mcpPorts: seq<Port>, s: Alloc)
    requires Run(OwnJobs(ports, mcpPorts), s).Ok? && s.selfRoutes == []
    ensures ProtocolsOf(Run(OwnJobs(ports, mcpPorts), s).value.selfRoutes, mcpPorts)
    decreases |ports|
  {
    if ports != [] {
      var n := |ports| - 1;
      var before, job := OwnJobs(ports[..n], mcpPorts), OwnPort(ports[n], ProtocolOf(ports[n], mcpPorts));
      OwnJobsSnoc(ports, mcpPorts);
      RunSnoc(before, job, s);
      OwnProtocols(ports[..n], mcpPorts, s);
      OwnStepProtocol(job, Run(before, s).value);
    }
  }

  lemma OwnStepProtocol(j: Job, t: Alloc)
    requires j.OwnPort? && Step(j, t).Ok?
    ensures var u := Step(j, t).value;
      |u.selfRoutes| == |t.selfRoutes| + 1 && u.selfRoutes[..|t.selfRoutes|] == t.selfRoutes
      && u.selfRoutes[|t.selfRoutes|].port == j.port && u.selfRoutes[|t.selfRoutes|].protocol == j.protocol
  {
  }

  lemma PlanProtocols(bundle: MeshBundle, selfId: string, registry: Registry, service: MeshService)
    requires Plan(bundle, selfId, registry).Ok? && Lookup(bundle.services, selfId) == Some(service)
    ensures ProtocolsOf(Plan(bundle, selfId, registry).value.0.selfRoutes, service.mcpPorts)
  {
    var _, s := PlanFinal(bundle, selfId, registry);
    var s0, peers := Initial(bundle, service, registry), Peers(bundle.services, selfId);
    var own, rest := OwnJobs(SortedUnique(service.ports), service.mcpPorts), PeersJobs(peers);
    RunAppend(own, rest, s0);
    OwnProtocols(SortedUnique(service.ports), service.mcpPorts, s0);
    PeersJobsOf(peers);
    PeersKeepSelf(rest, Run(own, s0).value);
  }

  /** The server routes are exactly the guest's mesh ports, each speaking MCP exactly if it is one of its MCP
      ports and raw bytes otherwise. */
  lemma ServerRoutesExactly(bundle: MeshBundle, selfId: string, registry: Registry, service: MeshService,
                            identity: Option<G.Identity>, plan: RoutePlan, c: G.Config, port: Port)
    requires Plan(bundle, selfId, registry).Ok? && plan == Plan(bundle, selfId, registry).value.0
    requires Lookup(bundle.services, selfId) == Some(service)
    requires GatewayConfigOf(bundle, selfId, service, identity, plan) == Ok(c)
    ensures (exists r :: r in c.serverRoutes && r.upstreamPort == port)
       <==> port in service.ports && forall cp :: cp in service.connect ==> cp.port != port
    ensures forall r :: r in c.serverRoutes ==>
      r.protocol == if r.upstreamPort in service.mcpPorts then "mcp" else "raw"
  {
    var meshPorts := ConfidentialPorts(service.ports, service.ConnectPorts());
    GeneratedRoutesAre(bundle, selfId, service, identity, plan, c);
    PlanProtocols(bundle, selfId, registry, service);
    PlanShape(bundle, selfId, registry);
    if port in meshPorts {
      PortHasRoute(plan.selfRoutes, service, port);
      var q :| q in plan.selfRoutes && q.port == port;
      assert AsServerRoute(q) in c.serverRoutes;
    }
  }

  ghost predicate ActiveWithKey(e: MeshEntry, id: string, key: string) {
    e.id == id && e.service.Active() && e.service.gatewayPublicKey == Some(key)
  }

  lemma {:induction false} TrustedIsActive(services: seq<MeshEntry>, trusted: map<string, string>, id: string)
    requires TrustedServices(services) == Ok(trusted) && id in trusted
    ensures exists e :: e in services && ActiveWithKey(e, id, trusted[id])
    decreases |services|
  {
    var n := |services| - 1;
    var before := TrustedServices(services[..n]).value;
    if services[n].id == id && services[n].service.Active() {
      assert ActiveWithKey(services[n], id, trusted[id]);
    } else {
      TrustedIsActive(services[..n], before, id);
      var e :| e in services[..n] && ActiveWithKey(e, id, before[id]);
      assert e in services;
    }
  }

  lemma {:induction false} ActiveIsTrusted(services: seq<MeshEntry>, trusted: map<string, string>, e: MeshEntry)
    requires TrustedServices(services) == Ok(trusted) && e in services && e.service.Active()
    ensures e.id in trusted
    decreases |services|
  {
    var n := |services| - 1;
    if e != services[n] {
      assert e in services[..n];
      ActiveIsTrusted(services[..n], TrustedServices(services[..n]).value, e);
    }
  }

  lemma {:induction false} TrustFailsExactly(services: seq<MeshEntry>)
    ensures TrustedServices(services).Err?
       <==> exists e :: e in services && e.service.Active() && e.service.gatewayPublicKey.None?
    decreases |services|
  {
    if services != [] {
      var n := |services| - 1;
      assert services == services[..n] + [services[n]];
      TrustFailsExactly(services[..n]);
    }
  }

  /** The gateway's file cannot be written exactly when the guest has no identity or an active service has no
      key. */
  lemma GatewayFailsExactly(bundle: MeshBundle, selfId: string, service: MeshService, identity: Option<G.Identity>,
                            plan: RoutePlan)
    ensures GatewayConfigOf(bundle, selfId, service, identity, plan).Err?
       <==> || identity.None?
            || exists e :: e in bundle.services && e.service.phase == "active" && e.service.gatewayPublicKey.None?
  {
    TrustFailsExactly(bundle.services);
  }

  /** The gateway trusts exactly the active services, the guest itself included, each with the key its entry
      holds. */
  lemma TrustsActiveServices(bundle: MeshBundle, selfId: string, service: MeshService, identity: Option<G.Identity>,
                             plan: RoutePlan, c: G.Config, id: string)
    requires WellFormed(bundle) && GatewayConfigOf(bundle, selfId, service, identity, plan) == Ok(c)
    ensures id in c.trusted <==> exists e :: e in bundle.services && e.id == id && e.service.phase == "active"
    ensures forall e :: e in bundle.services && e.service.phase == "active" ==>
      e.id in c.trusted && e.service.gatewayPublicKey == Some(c.trusted[e.id])
  {
    if id in c.trusted {
      TrustedIsActive(bundle.services, c.trusted, id);
    }
    forall e | e in bundle.services && e.service.Active()
      ensures e.id in c.trusted && e.service.gatewayPublicKey == Some(c.trusted[e.id])
    {
      ActiveIsTrusted(bundle.services, c.trusted, e);
      TrustedIsActive(bundle.services, c.trusted, e.id);
      var f :| f in bundle.services && ActiveWithKey(f, e.id, c.trusted[e.id]);
      LookupFindsEntry(bundle, e);
      LookupFindsEntry(bundle, f);
    }
  }
}
