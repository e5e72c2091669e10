/**
 From a plan to the files the guest publishes - service directory, TNG configuration, gateway
 configuration - and what happens to a connection that follows them.
 */
module MeshRouting {
  import opened Results
  import opened Ports
  import opened MeshSchema
  import opened MeshPlanner
  import opened MeshPlanSafety
  import MeshPlanRuns
  import G = GatewayConfig

  // ---------------------------------------------------------------- generated files

  datatype Mode = ConnectMode | MeshMode

  /** `protocol` is present for mesh endpoints only. */
  datatype DirectoryPort = DirectoryPort(port: Port, mode: Mode, protocol: Option<Protocol>)

  type ServiceDirectory = map<string, seq<DirectoryPort>>

  function AsDirectoryPort(r: PeerRoute): DirectoryPort {
    DirectoryPort(r.local, if r.connectMode then ConnectMode else MeshMode,
                  if r.connectMode then None else Some(r.protocol))
  }

  function DirectoryPorts(id: string, routes: seq<PeerRoute>): (ports: seq<DirectoryPort>)
    ensures forall d :: d in ports <==> exists r :: r in routes && r.service == id && AsDirectoryPort(r) == d
  {
    if routes == [] then []
    else
      var n := |routes| - 1;
      assert routes == routes[..n] + [routes[n]];
      DirectoryPorts(id, routes[..n]) + if routes[n].service == id then [AsDirectoryPort(routes[n])] else []
  }

  /** Active peers that have routes, each with its endpoints. */
  function DirectoryOf(services: seq<MeshEntry>, selfId: string, plan: RoutePlan): ServiceDirectory {
    if services == [] then map[]
    else
      var n := |services| - 1;
      var rest := DirectoryOf(services[..n], selfId, plan);
      var ports := DirectoryPorts(services[n].id, plan.peerRoutes);
      if services[n].id == selfId || !services[n].service.Active() || ports == [] then rest
      else rest[services[n].id := ports]
  }

  datatype ConfigFailure =
    | MissingIdentity
    | MissingKey(service: string)
    | MissingReferences(service: string)
    | BadRekorPayload(service: string)

  /** An OHTTP key shared with these replicas, each of which must meet this service's reference values. */
  datatype SharedKey = SharedKey(replicas: seq<string>, references: string)

  /** One TNG egress listener; `verify` lists the peers whose reference values callers must meet,
      and is absent for connect ports. */
  datatype TngEgress = TngEgress(captureDst: Port, listenPort: Port, encryption: EncryptionMode,
                                 shared: Option<SharedKey>, verify: Option<seq<string>>)

  datatype TngIngress = TngIngress(inPort: Port, outHost: string, outPort: Port, references: string, attest: bool)

  datatype TngConfig = TngConfig(egress: seq<TngEgress>, ingress: seq<TngIngress>)

  /** Own ports reachable over the mesh only: those without connect access. */
  function ConfidentialPorts(ports: seq<Port>, connect: set<Port>): (r: seq<Port>)
    ensures StrictlyIncreasing(r)
    ensures forall p :: p in r <==> p in ports && p !in connect
  {
    SortedUnique(Without(ports, connect))
  }

  function Without(ports: seq<Port>, connect: set<Port>): (r: seq<Port>)
    ensures forall p :: p in r <==> p in ports && p !in connect
  {
    if ports == [] then []
    else (if ports[0] in connect then [] else [ports[0]]) + Without(ports[1..], connect)
  }

  /** The encryption the last matching connect entry asks for; RATS-TLS otherwise. */
  function EncryptionOf(connect: seq<ConnectPort>, port: Port): EncryptionMode {
    if connect == [] then RatsTls
    else
      var n := |connect| - 1;
      if connect[n].port == port then connect[n].encryption else EncryptionOf(connect[..n], port)
  }

  /** Whether the own port uses OHTTP under a key shared with replicas. */
  predicate SharesKey(connect: seq<ConnectPort>, port: Port, replicas: seq<string>) {
    EncryptionOf(connect, port) == Ohttp && replicas != []
  }

  function AsEgress(r: SelfRoute, service: MeshService, selfId: string, peers: seq<string>, replicas: seq<string>)
    : TngEgress
  {
    TngEgress(r.port, r.egress, EncryptionOf(service.connect, r.port),
              if SharesKey(service.connect, r.port, replicas) then Some(SharedKey(replicas, selfId)) else None,
              if r.port in service.ConnectPorts() then None else Some(peers))
  }

  function AsIngress(r: PeerRoute): TngIngress {
    TngIngress(r.ingress, r.host, r.remote, r.service, !r.connectMode)
  }

  function Ids(entries: seq<MeshEntry>): seq<string> {
    seq(|entries|, i requires 0 <= i < |entries| => entries[i].id)
  }

  function TngConfigOf(bundle: MeshBundle, selfId: string, service: MeshService, plan: RoutePlan,
                       replicas: seq<string>): TngConfig {
    TngConfig(
      seq(|plan.selfRoutes|, i requires 0 <= i < |plan.selfRoutes| =>
        AsEgress(plan.selfRoutes[i], service, selfId, Ids(Peers(bundle.services, selfId)), replicas)),
      seq(|plan.peerRoutes|, i requires 0 <= i < |plan.peerRoutes| => AsIngress(plan.peerRoutes[i])))
  }

  function RouteServices(routes: seq<PeerRoute>): (r: seq<string>)
    ensures |r| == |routes| && forall i :: 0 <= i < |r| ==> r[i] == routes[i].service
  {
    if routes == [] then [] else RouteServices(routes[..|routes| - 1]) + [routes[|routes| - 1].service]
  }

  function FirstWithout(ids: seq<string>, have: set<string>): (r: Option<string>)
    ensures r.Some? ==> r.value in ids && r.value !in have
    ensures r.None? ==> forall id :: id in ids ==> id in have
  {
    if ids == [] then None
    else if ids[0] !in have then Some(ids[0])
    else FirstWithout(ids[1..], have)
  }

  /** The guest itself, once for each own route that shares its key. */
  function Sharers(routes: seq<SelfRoute>, selfId: string, connect: seq<ConnectPort>, replicas: seq<string>)
    : (r: seq<string>)
    ensures forall id :: id in r ==> id == selfId
    ensures r != [] <==> exists q :: q in routes && SharesKey(connect, q.port, replicas)
  {
    if routes == [] then []
    else
      var n := |routes| - 1;
      assert routes == routes[..n] + [routes[n]];
      Sharers(routes[..n], selfId, connect, replicas)
      + if SharesKey(connect, routes[n].port, replicas) then [selfId] else []
  }

  /** Who may call the guest's mesh ports, if it has any: every active peer. */
  function Callers(bundle: MeshBundle, selfId: string, service: MeshService): seq<string> {
    if ConfidentialPorts(service.ports, service.ConnectPorts()) != [] then Ids(Peers(bundle.services, selfId)) else []
  }

  /** Why the TNG file cannot be written: a service whose reference values are needed has none that can be
      rendered. Those of every active peer are needed if the guest has a mesh port, the guest's own if it
      shares a key, and those of every route's service always. */
  function TngFailure(bundle: MeshBundle, selfId: string, service: MeshService, plan: RoutePlan,
                      replicas: seq<string>): Option<ConfigFailure> {
    var callers := Callers(bundle, selfId, service);
    var sharers := Sharers(plan.selfRoutes, selfId, service.connect, replicas);
    match FirstWithout(callers + sharers + RouteServices(plan.peerRoutes), bundle.Referenced())
    case None => None
    case Some(id) => Some(if id in bundle.rekor then BadRekorPayload(id) else MissingReferences(id))
  }

  function AsClientRoute(r: PeerRoute): G.ClientRoute {
    G.ClientRoute(r.local, r.ingress, r.service, r.remote)
  }

  function ClientRoutes(routes: seq<PeerRoute>): (clients: seq<G.ClientRoute>)
    ensures forall c :: c in clients <==> exists r :: r in routes && !r.connectMode && AsClientRoute(r) == c
  {
    if routes == [] then []
    else
      var n := |routes| - 1;
      var r := routes[n];
      assert routes == routes[..n] + [r];
      ClientRoutes(routes[..n])
      + if r.connectMode then [] else [AsClientRoute(r)]
  }

  function AsServerRoute(r: SelfRoute): G.ServerRoute {
    G.ServerRoute(r.gateway, r.port, if r.protocol == Mcp then "mcp" else "raw")
  }

  function ServerRoutes(routes: seq<SelfRoute>, meshPorts: seq<Port>): (servers: seq<G.ServerRoute>)
    ensures forall s :: s in servers <==> exists r :: r in routes && r.port in meshPorts && AsServerRoute(r) == s
  {
    if routes == [] then []
    else
      var n := |routes| - 1;
      var r := routes[n];
      assert routes == routes[..n] + [r];
      ServerRoutes(routes[..n], meshPorts) + if r.port in meshPorts then [AsServerRoute(r)] else []
  }

  /** Public keys of the active services, the guest itself included. */
  function TrustedServices(services: seq<MeshEntry>): Result<map<string, string>, ConfigFailure> {
    if services == [] then Ok(map[])
    else
      var n := |services| - 1;
      match TrustedServices(services[..n])
      case Err(e) => Err(e)
      case Ok(trusted) =>
        if !services[n].service.Active() then Ok(trusted)
        else if services[n].service.gatewayPublicKey.None? then Err(MissingKey(services[n].id))
        else Ok(trusted[services[n].id := services[n].service.gatewayPublicKey.value])
  }

  function GatewayConfigOf(bundle: MeshBundle, selfId: string, service: MeshService,
                           identity: Option<G.Identity>, plan: RoutePlan): Result<G.Config, ConfigFailure> {
    if identity.None? then Err(MissingIdentity)
    else
      match TrustedServices(bundle.services)
      case Err(e) => Err(e)
      case Ok(trusted) =>
        Ok(G.Config(G.CONFIG_SCHEMA, selfId, identity, trusted, ClientRoutes(plan.peerRoutes),
                    ServerRoutes(plan.selfRoutes, ConfidentialPorts(service.ports, service.ConnectPorts()))))
  }

  // ---------------------------------------------------------------- the shape of a plan

  ghost predicate RouteFor(r: PeerRoute, peer: Peer, port: Port) {
    && r.service == peer.id && r.host == peer.host && r.remote == port
    && r.connectMode == (port in peer.connect)
    && r.protocol == (if port in peer.mcp then Mcp else Raw)
  }

  function SelfPorts(routes: seq<SelfRoute>): seq<Port> {
    seq(|routes|, i requires 0 <= i < |routes| => routes[i].port)
  }

  ghost predicate FromJob(r: PeerRoute, jobs: seq<Job>) {
    exists j :: j in jobs && j.PeerPort? && RouteFor(r, j.peer, j.port)
  }

  ghost predicate Routed(j: Job, routes: seq<PeerRoute>) {
    j.PeerPort? ==> exists r :: r in routes && RouteFor(r, j.peer, j.port)
  }

  lemma StepRoutes(j: Job, t: Alloc)
    requires Step(j, t).Ok?
    ensures var u := Step(j, t).value;
      if j.PeerPort? then exists r :: u.peerRoutes == t.peerRoutes + [r] && RouteFor(r, j.peer, j.port)
      else u.peerRoutes == t.peerRoutes
  {
    if j.PeerPort? {
      var r := Step(j, t).value.peerRoutes[|t.peerRoutes|];
      assert Step(j, t).value.peerRoutes == t.peerRoutes + [r] && RouteFor(r, j.peer, j.port);
    }
  }

  /** The routes are exactly those that the jobs ask for. */
  ghost predicate RoutesOf(jobs: seq<Job>, routes: seq<PeerRoute>) {
    && (forall r :: r in routes ==> FromJob(r, jobs))
    && (forall j :: j in jobs ==> Routed(j, routes))
  }

  lemma MoreJobs(jobs: seq<Job>, j: Job, routes: seq<PeerRoute>)
    requires RoutesOf(jobs, routes) && !j.PeerPort?
    ensures RoutesOf(jobs + [j], routes)
  {
    forall r | r in routes ensures FromJob(r, jobs + [j]) {
      var k :| k in jobs && k.PeerPort? && RouteFor(r, k.peer, k.port);
      assert k in jobs + [j];
    }
  }

  lemma MoreRoutes(jobs: seq<Job>, j: Job, routes: seq<PeerRoute>, r: PeerRoute)
    requires RoutesOf(jobs, routes) && j.PeerPort? && RouteFor(r, j.peer, j.port)
    ensures RoutesOf(jobs + [j], routes + [r])
  {
    forall q | q in routes + [r] ensures FromJob(q, jobs + [j]) {
      if q in routes {
        var k :| k in jobs && k.PeerPort? && RouteFor(q, k.peer, k.port);
        assert k in jobs + [j];
      } else {
        assert j in jobs + [j];
      }
    }
    forall k | k in jobs + [j] ensures Routed(k, routes + [r]) {
      if k in jobs && k.PeerPort? {
        var q :| q in routes && RouteFor(q, k.peer, k.port);
        assert q in routes + [r];
      } else if k == j {
        assert r in routes + [r];
      }
    }
  }

  lemma {:induction false} RunShape(jobs: seq<Job>, s: Alloc)
    requires Run(jobs, s).Ok? && s.peerRoutes == []
    ensures RoutesOf(jobs, Run(jobs, s).value.peerRoutes)
  {
    if jobs != [] {
      var n := |jobs| - 1;
      assert jobs == jobs[..n] + [jobs[n]];
      RunShape(jobs[..n], s);
      var t, u := Run(jobs[..n], s).value, Run(jobs, s).value;
      StepRoutes(jobs[n], t);
      if jobs[n].PeerPort? {
        var r :| u.peerRoutes == t.peerRoutes + [r] && RouteFor(r, jobs[n].peer, jobs[n].port);
        MoreRoutes(jobs[..n], jobs[n], t.peerRoutes, r);
      } else {
        MoreJobs(jobs[..n], jobs[n], t.peerRoutes);
      }
    }
  }

  lemma OwnJobsSnoc(ports: seq<Port>, mcpPorts: seq<Port>)
    requires ports != []
    ensures var n := |ports| - 1;
      OwnJobs(ports, mcpPorts) == OwnJobs(ports[..n], mcpPorts) + [OwnPort(ports[n], ProtocolOf(ports[n], mcpPorts))]
  {
  }

  lemma SelfPortsSnoc(routes: seq<SelfRoute>, r: SelfRoute)
    ensures SelfPorts(routes + [r]) == SelfPorts(routes) + [r.port]
  {
  }

  lemma OwnStepRoutes(j: Job, t: Alloc)
    requires j.OwnPort? && Step(j, t).Ok?
    ensures exists r :: Step(j, t).value.selfRoutes == t.selfRoutes + [r] && r.port == j.port
  {
    var u := Step(j, t).value;
    assert u.selfRoutes == t.selfRoutes + [u.selfRoutes[|t.selfRoutes|]];
  }

  lemma {:induction false} OwnShape(ports: seq<Port>, mcpPorts: seq<Port>, s: Alloc)
    requires Run(OwnJobs(ports, mcpPorts), s).Ok? && s.selfRoutes == []
    ensures SelfPorts(Run(OwnJobs(ports, mcpPorts), s).value.selfRoutes) == ports
  {
    if ports != [] {
      var n := |ports| - 1;
      var before, job := OwnJobs(ports[..n], mcpPorts), OwnPort(ports[n], ProtocolOf(ports[n], mcpPorts));
      OwnJobsSnoc(ports, mcpPorts);
      RunSnoc(before, job, s);
      OwnShape(ports[..n], mcpPorts, s);
      var t := Run(before, s).value;
      OwnStepRoutes(job, t);
      var r :| Step(job, t).value.selfRoutes == t.selfRoutes + [r] && r.port == job.port;
      SelfPortsSnoc(t.selfRoutes, r);
      assert ports == ports[..n] + [ports[n]];
    }
  }

  lemma {:induction false} PeersKeepSelf(jobs: seq<Job>, s: Alloc)
    requires Run(jobs, s).Ok? && forall j :: j in jobs ==> !j.OwnPort?
    ensures Run(jobs, s).value.selfRoutes == s.selfRoutes
  {
    if jobs != [] {
      PeersKeepSelf(jobs[..|jobs| - 1], s);
    }
  }

  lemma PeerJobsOf(e: MeshEntry)
    ensures forall j :: j in PeerJobs(e) ==>
      !j.OwnPort? && (j.PeerPort? ==> j.peer == AsPeer(e) && j.port in e.service.ports)
    ensures forall p :: p in e.service.ports ==> PeerPort(AsPeer(e), p) in PeerJobs(e)
  {
    var ports := SortedUnique(e.service.ports);
    forall p | p in e.service.ports ensures PeerPort(AsPeer(e), p) in PeerJobs(e) {
      assert p in ports;
      var i :| 0 <= i < |ports| && ports[i] == p;
      assert PeerJobs(e)[1 + i] == PeerPort(AsPeer(e), p);
    }
    forall j | j in PeerJobs(e) && j.PeerPort? ensures j.peer == AsPeer(e) && j.port in e.service.ports {
      var k :| 0 <= k < |PeerJobs(e)| && PeerJobs(e)[k] == j;
      assert j.port == ports[k - 1] && j.port in ports;
    }
  }

  lemma {:induction false} PeersJobsOf(peers: seq<MeshEntry>)
    ensures forall j :: j in PeersJobs(peers) ==> !j.OwnPort?
    ensures forall j :: j in PeersJobs(peers) && j.PeerPort? ==>
      exists e :: e in peers && j.peer == AsPeer(e) && j.port in e.service.ports
    ensures forall e: MeshEntry, p :: e in peers && p in e.service.ports ==> PeerPort(AsPeer(e), p) in PeersJobs(peers)
  {
    if peers != [] {
      var n := |peers| - 1;
      assert peers == peers[..n] + [peers[n]];
      PeersJobsOf(peers[..n]);
      PeerJobsOf(peers[n]);
    }
  }

  ghost predicate RouteKnown(r: PeerRoute, peers: seq<MeshEntry>) {
    exists e :: e in peers && r.remote in e.service.ports
      && RouteFor(r, AsPeer(e), r.remote) && e.service.ReachableHost() == Some(r.host)
  }

  ghost predicate PortRouted(e: MeshEntry, p: Port, routes: seq<PeerRoute>) {
    exists r :: r in routes && RouteFor(r, AsPeer(e), p)
  }

  lemma PeerRouteKnown(r: PeerRoute, jobs: seq<Job>, own: seq<Job>, peers: seq<MeshEntry>)
    requires jobs == own + PeersJobs(peers) && forall j :: j in own ==> j.OwnPort?
    requires FromJob(r, jobs) && forall k :: k in jobs && k.Reach? ==> k.host.Some?
    ensures RouteKnown(r, peers)
  {
    PeersJobsOf(peers);
    var j: Job :| j in jobs && j.PeerPort? && RouteFor(r, j.peer, j.port);
    assert j in PeersJobs(peers);
    var e: MeshEntry :| e in peers && j.peer == AsPeer(e) && j.port in e.service.ports;
    MeshPlanRuns.ReachJobs(peers, e);
    assert Reach(e.id, e.service.ReachableHost()) in jobs;
  }

  lemma PeerRoutesKnown(jobs: seq<Job>, own: seq<Job>, peers: seq<MeshEntry>, s: Alloc)
    requires jobs == own + PeersJobs(peers) && forall j :: j in own ==> j.OwnPort?
    requires Run(jobs, s).Ok? && s.peerRoutes == []
    ensures forall r :: r in Run(jobs, s).value.peerRoutes ==> RouteKnown(r, peers)
  {
    RunShape(jobs, s);
    MeshPlanRuns.RunNeedsHosts(jobs, s);
    forall r | r in Run(jobs, s).value.peerRoutes
      ensures RouteKnown(r, peers)
    {
      PeerRouteKnown(r, jobs, own, peers);
    }
  }

  lemma PeerPortsRouted(jobs: seq<Job>, own: seq<Job>, peers: seq<MeshEntry>, s: Alloc)
    requires jobs == own + PeersJobs(peers)
    requires Run(jobs, s).Ok? && s.peerRoutes == []
    ensures forall e: MeshEntry, p :: e in peers && p in e.service.ports ==>
      PortRouted(e, p, Run(jobs, s).value.peerRoutes)
  {
    RunShape(jobs, s);
    PeersJobsOf(peers);
    forall e: MeshEntry, p | e in peers && p in e.service.ports
      ensures PortRouted(e, p, Run(jobs, s).value.peerRoutes)
    {
      assert Routed(PeerPort(AsPeer(e), p), Run(jobs, s).value.peerRoutes);
    }
  }

  /** A successful plan has exactly the routes of the active peers' ports, at their reachable
      addresses, and one own route for each own port. */
  lemma PlanShape(bundle: MeshBundle, selfId: string, registry: Registry)
    requires Plan(bundle, selfId, registry).Ok?
    ensures var plan := Plan(bundle, selfId, registry).value.0;
      && (forall r :: r in plan.peerRoutes ==> RouteKnown(r, Peers(bundle.services, selfId)))
      && (forall e: MeshEntry, p :: e in Peers(bundle.services, selfId) && p in e.service.ports ==>
            PortRouted(e, p, plan.peerRoutes))
      && SelfPorts(plan.selfRoutes) == SortedUnique(Lookup(bundle.services, selfId).value.ports)
  {
    var service, s := PlanFinal(bundle, selfId, registry);
    var s0, peers := Initial(bundle, service, registry), Peers(bundle.services, selfId);
    var own, rest := OwnJobs(SortedUnique(service.ports), service.mcpPorts), PeersJobs(peers);
    PeerRoutesKnown(own + rest, own, peers, s0);
    PeerPortsRouted(own + rest, own, peers, s0);
    RunAppend(own, rest, s0);
    OwnShape(SortedUnique(service.ports), service.mcpPorts, s0);
    PeersJobsOf(peers);
    PeersKeepSelf(rest, Run(own, s0).value);
  }

  lemma IdsArePeers(peers: seq<MeshEntry>, id: string)
    ensures id in Ids(peers) <==> exists e :: e in peers && e.id == id
  {
    if id in Ids(peers) {
      var i :| 0 <= i < |peers| && Ids(peers)[i] == id;
      assert peers[i] in peers;
    }
    if exists e :: e in peers && e.id == id {
      var e :| e in peers && e.id == id;
      var i :| 0 <= i < |peers| && peers[i] == e;
      assert Ids(peers)[i] == id;
    }
  }

  lemma RouteServiceListed(routes: seq<PeerRoute>, r: PeerRoute)
    requires r in routes
    ensures r.service in RouteServices(routes)
  {
    var j :| 0 <= j < |routes| && routes[j] == r;
    assert RouteServices(routes)[j] == r.service;
  }

  lemma ListedServiceRouted(routes: seq<PeerRoute>, id: string)
    requires id in RouteServices(routes)
    ensures exists r :: r in routes && r.service == id
  {
    var i :| 0 <= i < |routes| && RouteServices(routes)[i] == id;
    assert routes[i] in routes;
  }

  lemma RouteServicesArePeers(peers: seq<MeshEntry>, routes: seq<PeerRoute>, id: string)
    requires forall r :: r in routes ==> RouteKnown(r, peers)
    requires id in RouteServices(routes)
    ensures exists e :: e in peers && e.id == id && e.service.ports != []
  {
    ListedServiceRouted(routes, id);
    var r :| r in routes && r.service == id;
    assert RouteKnown(r, peers);
  }

  lemma PeerWithPortListed(e: MeshEntry, routes: seq<PeerRoute>)
    requires e.service.ports != [] && PortRouted(e, e.service.ports[0], routes)
    ensures e.id in RouteServices(routes)
  {
    var r :| r in routes && RouteFor(r, AsPeer(e), e.service.ports[0]);
    RouteServiceListed(routes, r);
  }

  /** An active peer whose reference values cannot be had has a port, or may call a mesh port of the guest. */
  ghost predicate PeerUnreferenced(bundle: MeshBundle, selfId: string, service: MeshService) {
    exists e :: e in Peers(bundle.services, selfId) && Unreferenced(e, bundle.Referenced(), service)
  }

  ghost predicate Unreferenced(e: MeshEntry, have: set<string>, service: MeshService) {
    && e.id !in have
    && (e.service.ports != [] || ConfidentialPorts(service.ports, service.ConnectPorts()) != [])
  }

  /** The guest's own reference values cannot be had, and one of its ports shares an OHTTP key. */
  ghost predicate SharerUnreferenced(bundle: MeshBundle, selfId: string, service: MeshService, replicas: seq<string>) {
    selfId !in bundle.Referenced() && exists p :: p in service.ports && SharesKey(service.connect, p, replicas)
  }

  /** The TNG file of a plan cannot be written exactly when an active peer whose reference values cannot be
      had has a port or may call a mesh port of this guest, or this guest's own cannot be had and one of its
      ports shares an OHTTP key with replicas. */
  lemma TngFailsExactly(bundle: MeshBundle, selfId: string, registry: Registry, service: MeshService, plan: RoutePlan,
                        replicas: seq<string>)
    requires Plan(bundle, selfId, registry).Ok? && plan == Plan(bundle, selfId, registry).value.0
    requires Lookup(bundle.services, selfId) == Some(service)
    ensures TngFailure(bundle, selfId, service, plan, replicas).Some?
       <==> PeerUnreferenced(bundle, selfId, service) || SharerUnreferenced(bundle, selfId, service, replicas)
  {
    var have, sharers := bundle.Referenced(), Sharers(plan.selfRoutes, selfId, service.connect, replicas);
    PlanShape(bundle, selfId, registry);
    FirstWithoutSplits(Callers(bundle, selfId, service), sharers, RouteServices(plan.peerRoutes), have);
    CallersExactly(bundle, selfId, service, plan.peerRoutes);
    SomeSharer(sharers, selfId, have);
    SharersExactly(plan.selfRoutes, service, selfId, replicas);
  }

  lemma FirstWithoutSplits(a: seq<string>, b: seq<string>, c: seq<string>, have: set<string>)
    ensures FirstWithout(a + b + c, have).Some?
       <==> FirstWithout(a + c, have).Some? || exists id :: id in b && id !in have
  {
    var all, some := FirstWithout(a + b + c, have), FirstWithout(a + c, have);
    assert forall id :: id in a + b + c <==> id in a + c || id in b;
  }

  lemma SharingRoutePort(routes: seq<SelfRoute>, service: MeshService, q: SelfRoute)
    requires SelfPorts(routes) == SortedUnique(service.ports) && q in routes
    ensures q.port in service.ports
  {
    var i :| 0 <= i < |routes| && routes[i] == q;
    assert SelfPorts(routes)[i] in SortedUnique(service.ports);
  }

  lemma PortHasRoute(routes: seq<SelfRoute>, service: MeshService, p: Port)
    requires SelfPorts(routes) == SortedUnique(service.ports) && p in service.ports
    ensures exists q :: q in routes && q.port == p
  {
    assert p in SelfPorts(routes);
    var i :| 0 <= i < |routes| && SelfPorts(routes)[i] == p;
    assert routes[i] in routes;
  }

  lemma SharersExactly(routes: seq<SelfRoute>, service: MeshService, selfId: string, replicas: seq<string>)
    requires SelfPorts(routes) == SortedUnique(service.ports)
    ensures Sharers(routes, selfId, service.connect, replicas) != []
       <==> exists p :: p in service.ports && SharesKey(service.connect, p, replicas)
  {
    if Sharers(routes, selfId, service.connect, replicas) != [] {
      var q :| q in routes && SharesKey(service.connect, q.port, replicas);
      SharingRoutePort(routes, service, q);
    } else if p :| p in service.ports && SharesKey(service.connect, p, replicas) {
      PortHasRoute(routes, service, p);
    }
  }

  lemma SomeSharer(sharers: seq<string>, selfId: string, have: set<string>)
    requires forall id :: id in sharers ==> id == selfId
    ensures (exists id :: id in sharers && id !in have) <==> selfId !in have && sharers != []
  {
    assert sharers != [] ==> sharers[0] in sharers;
  }

  lemma CallersExactly(bundle: MeshBundle, selfId: string, service: MeshService, routes: seq<PeerRoute>)
    requires var peers := Peers(bundle.services, selfId);
      && (forall r :: r in routes ==> RouteKnown(r, peers))
      && (forall e: MeshEntry, p :: e in peers && p in e.service.ports ==> PortRouted(e, p, routes))
    ensures FirstWithout(Callers(bundle, selfId, service) + RouteServices(routes), bundle.Referenced()).Some?
       <==> PeerUnreferenced(bundle, selfId, service)
  {
    var have, confidential := bundle.Referenced(), ConfidentialPorts(service.ports, service.ConnectPorts()) != [];
    NeededReferences(Peers(bundle.services, selfId), routes, have, confidential);
    assert forall e :: Unreferenced(e, have, service) <==> e.id !in have && (e.service.ports != [] || confidential);
  }

  lemma NeededReferences(peers: seq<MeshEntry>, routes: seq<PeerRoute>, have: set<string>, confidential: bool)
    requires forall r :: r in routes ==> RouteKnown(r, peers)
    requires forall e: MeshEntry, p :: e in peers && p in e.service.ports ==> PortRouted(e, p, routes)
    ensures FirstWithout((if confidential then Ids(peers) else []) + RouteServices(routes), have).Some?
      <==> exists e :: e in peers && e.id !in have && (e.service.ports != [] || confidential)
  {
    var needed := (if confidential then Ids(peers) else []) + RouteServices(routes);
    var missing := FirstWithout(needed, have);
    if missing.Some? {
      IdsArePeers(peers, missing.value);
      if missing.value in RouteServices(routes) {
        RouteServicesArePeers(peers, routes, missing.value);
      }
    }
    forall e | e in peers && (e.service.ports != [] || confidential) ensures e.id in needed {
      IdsArePeers(peers, e.id);
      if e.service.ports != [] {
        PeerWithPortListed(e, routes);
      }
    }
  }

  // ---------------------------------------------------------------- the gateway's port checks

  lemma {:induction false} IngressListed(routes: seq<PeerRoute>, r: PeerRoute)
    requires r in routes && !r.connectMode
    ensures r.ingress in MeshIngress(routes)
  {
    var n := |routes| - 1;
    if r != routes[n] {
      IngressListed(routes[..n], r);
    }
  }

  ghost predicate Single(s: seq<Port>) {
    forall x :: multiset(s)[x] <= 1
  }

  lemma SingleInPrefix(s: seq<Port>, x: Port)
    requires Single(s + [x])
    ensures x !in s && Single(s)
  {
    assert multiset(s + [x]) == multiset(s) + multiset{x};
    assert multiset(s + [x])[x] <= 1;
    forall y ensures multiset(s)[y] <= 1 {
      assert multiset(s)[y] <= multiset(s + [x])[y];
    }
  }

  lemma SingleBefore(routes: seq<PeerRoute>, last: PeerRoute)
    requires Single(MeshIngress(routes + [last]))
    ensures Single(MeshIngress(routes)) && (!last.connectMode ==> last.ingress !in MeshIngress(routes))
  {
    AddPeerRoute(routes, last);
    if last.connectMode {
      assert MeshIngress(routes + [last]) == MeshIngress(routes);
    } else {
      SingleInPrefix(MeshIngress(routes), last.ingress);
    }
  }

  lemma {:induction false} IngressUnique(routes: seq<PeerRoute>, q: PeerRoute, r: PeerRoute)
    requires Single(MeshIngress(routes))
    requires q in routes && r in routes && !q.connectMode && !r.connectMode && q.ingress == r.ingress
    ensures q == r
  {
    var n := |routes| - 1;
    var before, last := routes[..n], routes[n];
    assert routes == before + [last];
    SingleBefore(before, last);
    if q in before {
      IngressListed(before, q);
    }
    if r in before {
      IngressListed(before, r);
    }
    if q in before && r in before {
      IngressUnique(before, q, r);
    }
  }

  lemma LocalUnique(routes: seq<PeerRoute>)
    requires Distinct(Locals(routes))
    ensures forall q, r :: q in routes && r in routes && q.local == r.local ==> q == r
  {
    forall q, r | q in routes && r in routes && q.local == r.local
      ensures q == r
    {
      var i :| 0 <= i < |routes| && routes[i] == q;
      var j :| 0 <= j < |routes| && routes[j] == r;
      assert Locals(routes)[i] == Locals(routes)[j];
    }
  }

  /** How the listeners of a plan's routes relate: no two routes share one, and a hidden ingress is
      never another route's local port. */
  ghost predicate RoutesApart(routes: seq<PeerRoute>) {
    && (forall q, r :: q in routes && r in routes && q.local == r.local ==> q == r)
    && (forall q, r :: q in routes && r in routes && q.ingress == r.ingress ==> q == r)
    && (forall q, r :: q in routes && r in routes && !r.connectMode ==> q.local != r.ingress)
    && (forall r :: r in routes && r.connectMode ==> r.ingress == r.local)
  }

  lemma InvLocals(s: Alloc, base: set<Port>, own: set<Port>)
    requires Inv(s, base, own)
    ensures Distinct(Locals(s.peerRoutes))
    ensures forall q, r :: q in s.peerRoutes && r in s.peerRoutes && q.local == r.local ==> q == r
    ensures forall q :: q in s.peerRoutes ==> q.local in s.reserved
  {
    SingleMultiplicityIsDistinct(Locals(s.peerRoutes));
    LocalUnique(s.peerRoutes);
    forall q | q in s.peerRoutes ensures q.local in s.reserved {
      assert RouteReserved(q, s.registry);
    }
  }

  lemma InvIngress(s: Alloc, base: set<Port>, own: set<Port>)
    requires Inv(s, base, own)
    ensures Single(MeshIngress(s.peerRoutes))
    ensures forall x :: x in MeshIngress(s.peerRoutes) ==> x !in s.reserved
  {
    var ingress, hidden := MeshIngress(s.peerRoutes), Hidden(s.selfRoutes, s.peerRoutes);
    forall x ensures multiset(ingress)[x] <= 1 {
      assert multiset(ingress)[x] <= hidden[x];
    }
    forall x | x in ingress ensures x !in s.reserved {
      assert x in multiset(ingress) && x in hidden;
    }
  }

  lemma InvRoutesApart(s: Alloc, base: set<Port>, own: set<Port>)
    requires Inv(s, base, own)
    ensures RoutesApart(s.peerRoutes) && Distinct(Locals(s.peerRoutes))
  {
    InvLocals(s, base, own);
    InvIngress(s, base, own);
    ConnectListensLocally(s, base, own);
    RoutesApartFrom(s.peerRoutes, s.reserved);
  }

  lemma ConnectListensLocally(s: Alloc, base: set<Port>, own: set<Port>)
    requires Inv(s, base, own)
    ensures forall r :: r in s.peerRoutes && r.connectMode ==> r.ingress == r.local
  {
    forall r | r in s.peerRoutes && r.connectMode ensures r.ingress == r.local {
      assert RouteReserved(r, s.registry);
    }
  }

  lemma RoutesApartFrom(routes: seq<PeerRoute>, reserved: set<Port>)
    requires forall q, r :: q in routes && r in routes && q.local == r.local ==> q == r
    requires forall q :: q in routes ==> q.local in reserved
    requires Single(MeshIngress(routes))
    requires forall x :: x in MeshIngress(routes) ==> x !in reserved
    requires forall r :: r in routes && r.connectMode ==> r.ingress == r.local
    ensures RoutesApart(routes)
  {
    forall r | r in routes && !r.connectMode ensures r.ingress !in reserved {
      IngressListed(routes, r);
    }
    forall q, r | q in routes && r in routes && q.ingress == r.ingress ensures q == r {
      if !q.connectMode && !r.connectMode {
        IngressUnique(routes, q, r);
      }
    }
  }

  lemma PlanRoutesApart(bundle: MeshBundle, selfId: string, registry: Registry)
    requires Plan(bundle, selfId, registry).Ok?
    ensures RoutesApart(Plan(bundle, selfId, registry).value.0.peerRoutes)
    ensures Distinct(Locals(Plan(bundle, selfId, registry).value.0.peerRoutes))
  {
    var service, s := PlanFinal(bundle, selfId, registry);
    InvRoutesApart(s, Base(bundle), Elements(service.ports));
  }

  lemma EarlierLocalDiffers(routes: seq<PeerRoute>, r: PeerRoute)
    requires routes != [] && Distinct(Locals(routes)) && r in routes[..|routes| - 1]
    ensures r.local != routes[|routes| - 1].local
  {
    var k :| 0 <= k < |routes| - 1 && routes[k] == r;
    assert Locals(routes)[k] != Locals(routes)[|routes| - 1];
  }

  lemma EarlierGatewayDiffers(routes: seq<SelfRoute>, r: SelfRoute)
    requires routes != [] && Distinct(GatewayListeners(routes)) && r in routes[..|routes| - 1]
    ensures r.gateway != routes[|routes| - 1].gateway
  {
    var k :| 0 <= k < |routes| - 1 && routes[k] == r;
    assert GatewayListeners(routes)[k] != GatewayListeners(routes)[|routes| - 1];
  }

  lemma {:induction false} ClientListeners(routes: seq<PeerRoute>)
    requires RoutesApart(routes) && Distinct(Locals(routes))
    ensures G.ClientListensDistinct(ClientRoutes(routes))
    ensures forall c :: c in ClientRoutes(routes) ==> c.listenPort != c.tngPort
  {
    if routes != [] {
      var n := |routes| - 1;
      assert Locals(routes)[..n] == Locals(routes[..n]);
      ClientListeners(routes[..n]);
      var c := ClientRoutes(routes[..n]);
      forall i | 0 <= i < |c|
        ensures c[i].listenPort != routes[n].local
      {
        assert c[i] in c;
        var r :| r in routes[..n] && AsClientRoute(r) == c[i];
        assert c[i] == AsClientRoute(r);
        EarlierLocalDiffers(routes, r);
      }
    }
  }

  lemma {:induction false} ServerListeners(routes: seq<SelfRoute>, meshPorts: seq<Port>)
    requires Distinct(GatewayListeners(routes))
    ensures G.ServerListensDistinct(ServerRoutes(routes, meshPorts))
  {
    if routes != [] {
      var n := |routes| - 1;
      assert GatewayListeners(routes)[..n] == GatewayListeners(routes[..n]);
      ServerListeners(routes[..n], meshPorts);
      var c := ServerRoutes(routes[..n], meshPorts);
      forall i | 0 <= i < |c|
        ensures c[i].listenPort != routes[n].gateway
      {
        assert c[i] in c;
        var r :| r in routes[..n] && AsServerRoute(r) == c[i];
        assert c[i] == AsServerRoute(r);
        EarlierGatewayDiffers(routes, r);
      }
    }
  }

  lemma HiddenGateways(s: Alloc, base: set<Port>, own: set<Port>)
    requires Inv(s, base, own)
    ensures Distinct(GatewayListeners(s.selfRoutes))
    ensures forall q :: q in s.selfRoutes ==> q.gateway !in base
  {
    var gateways := GatewayListeners(s.selfRoutes);
    forall x
      ensures multiset(gateways)[x] <= 1
    {
      assert multiset(gateways)[x] <= Hidden(s.selfRoutes, s.peerRoutes)[x];
    }
    SingleMultiplicityIsDistinct(gateways);
    forall q | q in s.selfRoutes
      ensures q.gateway !in base
    {
      var k :| 0 <= k < |s.selfRoutes| && s.selfRoutes[k] == q;
      assert gateways[k] in multiset(gateways);
    }
  }

  lemma ServerRoutesPass(s: Alloc, base: set<Port>, own: set<Port>, meshPorts: seq<Port>)
    requires Inv(s, base, own) && forall p :: p in meshPorts ==> p in base
    ensures G.ServerListensDistinct(ServerRoutes(s.selfRoutes, meshPorts))
    ensures forall r :: r in ServerRoutes(s.selfRoutes, meshPorts) ==>
      r.listenPort != r.upstreamPort && r.protocol in ["raw", "mcp"]
  {
    HiddenGateways(s, base, own);
    ServerListeners(s.selfRoutes, meshPorts);
  }

  /** Where the gateway file's routes come from. */
  lemma GeneratedRoutesAre(bundle: MeshBundle, selfId: string, service: MeshService, identity: Option<G.Identity>,
                           plan: RoutePlan, c: G.Config)
    requires GatewayConfigOf(bundle, selfId, service, identity, plan) == Ok(c)
    ensures c.clientRoutes == ClientRoutes(plan.peerRoutes)
    ensures c.serverRoutes == ServerRoutes(plan.selfRoutes, ConfidentialPorts(service.ports, service.ConnectPorts()))
  {
  }

  /** Whatever the plan, the routes generated from it pass the gateway's own port checks. */
  lemma GeneratedRoutesPass(bundle: MeshBundle, selfId: string, registry: Registry, service: MeshService,
                            identity: Option<G.Identity>, plan: RoutePlan, c: G.Config)
    requires Plan(bundle, selfId, registry).Ok? && plan == Plan(bundle, selfId, registry).value.0
    requires Lookup(bundle.services, selfId) == Some(service)
    requires GatewayConfigOf(bundle, selfId, service, identity, plan) == Ok(c)
    ensures G.PortChecks(c)
  {
    GeneratedRoutesAre(bundle, selfId, service, identity, plan, c);
    var _, s := PlanFinal(bundle, selfId, registry);
    var meshPorts := ConfidentialPorts(service.ports, service.ConnectPorts());
    PlanRoutesApart(bundle, selfId, registry);
    ClientListeners(s.peerRoutes);
    assert forall p :: p in meshPorts ==> p in Elements(service.ports);
    ServerRoutesPass(s, Base(bundle), Elements(service.ports), meshPorts);
  }

  // ---------------------------------------------------------------- following an endpoint

  /** Where a connection ends up: the token sent ahead of it, the attested identity TNG demands of
      the far side, and the address dialled. */
  datatype Arrival = Arrival(token: Option<string>, attestedAs: string, host: string, port: Port)

  ghost predicate ThroughTng(tng: TngConfig, p: Port, token: Option<string>, a: Arrival) {
    exists i :: i in tng.ingress && i.inPort == p && a == Arrival(token, i.references, i.outHost, i.outPort)
  }

  /** All the places a connection to local port `p` can lead to under the published files. */
  ghost predicate Reaches(c: G.Config, tng: TngConfig, p: Port, a: Arrival) {
    || ThroughTng(tng, p, None, a)
    || exists r :: r in c.clientRoutes && r.listenPort == p
         && ThroughTng(tng, r.tngPort, Some(G.Audience(r.targetService, r.targetPort)), a)
  }

  ghost function Expected(r: PeerRoute): Arrival {
    Arrival(if r.connectMode then None else Some(G.Audience(r.service, r.remote)), r.service, r.host, r.remote)
  }

  lemma IngressOf(tng: TngConfig, routes: seq<PeerRoute>, r: PeerRoute, token: Option<string>, a: Arrival)
    requires RoutesApart(routes) && r in routes
    requires forall i :: i in tng.ingress <==> exists q :: q in routes && AsIngress(q) == i
    ensures ThroughTng(tng, r.ingress, token, a) <==> a == Arrival(token, r.service, r.host, r.remote)
  {
    assert AsIngress(r) in tng.ingress;
  }

  lemma RouteLeadsHome(c: G.Config, tng: TngConfig, routes: seq<PeerRoute>, r: PeerRoute, a: Arrival)
    requires RoutesApart(routes) && r in routes
    requires c.clientRoutes == ClientRoutes(routes)
    requires forall i :: i in tng.ingress <==> exists q :: q in routes && AsIngress(q) == i
    ensures Reaches(c, tng, r.local, a) <==> a == Expected(r)
  {
    if r.connectMode {
      IngressOf(tng, routes, r, None, a);
      forall k | k in c.clientRoutes
        ensures k.listenPort != r.local
      {
        var q :| q in routes && !q.connectMode && AsClientRoute(q) == k;
      }
    } else {
      IngressOf(tng, routes, r, Some(G.Audience(r.service, r.remote)), a);
      assert AsClientRoute(r) in c.clientRoutes;
      forall k | k in c.clientRoutes && k.listenPort == r.local
        ensures k == AsClientRoute(r)
      {
        var q :| q in routes && !q.connectMode && AsClientRoute(q) == k;
      }
      forall i | i in tng.ingress
        ensures i.inPort != r.local
      {
        var q :| q in routes && AsIngress(q) == i;
      }
    }
  }

  lemma {:induction false} DirectoryEntry(services: seq<MeshEntry>, selfId: string, plan: RoutePlan, id: string)
    requires id in DirectoryOf(services, selfId, plan)
    ensures DirectoryOf(services, selfId, plan)[id] == DirectoryPorts(id, plan.peerRoutes)
  {
    var n := |services| - 1;
    if id in DirectoryOf(services[..n], selfId, plan) {
      DirectoryEntry(services[..n], selfId, plan, id);
    }
  }

  /** A directory endpoint leads to exactly one place. */
  ghost predicate LeadsTo(c: G.Config, tng: TngConfig, registry: Registry, id: string, d: DirectoryPort, r: PeerRoute) {
    && r.service == id && r.local == d.port && (d.mode == ConnectMode <==> r.connectMode)
    && Endpoint(id, r.remote) in registry && registry[Endpoint(id, r.remote)] == d.port
    && forall a :: Reaches(c, tng, d.port, a) <==> a == Expected(r)
  }

  /**
   Following any published endpoint through the generated gateway and TNG files reaches exactly the
   remote port the registry assigns that endpoint to, at the peer's reachable address, attested as
   that peer, carrying the token for that peer and port (none for connect endpoints) - and nowhere
   else.
   */
  lemma DirectoryLeadsHome(bundle: MeshBundle, selfId: string, registry: Registry, service: MeshService,
                           identity: Option<G.Identity>, plan: RoutePlan, after: Registry, c: G.Config,
                           replicas: seq<string>, id: string, d: DirectoryPort)
    requires Plan(bundle, selfId, registry) == Ok((plan, after)) && Lookup(bundle.services, selfId) == Some(service)
    requires GatewayConfigOf(bundle, selfId, service, identity, plan) == Ok(c)
    requires var dir := DirectoryOf(bundle.services, selfId, plan); id in dir && d in dir[id]
    ensures exists r ::
      && r in plan.peerRoutes && RouteKnown(r, Peers(bundle.services, selfId))
      && LeadsTo(c, TngConfigOf(bundle, selfId, service, plan, replicas), after, id, d, r)
  {
    var tng := TngConfigOf(bundle, selfId, service, plan, replicas);
    DirectoryEntry(bundle.services, selfId, plan, id);
    var r :| r in plan.peerRoutes && r.service == id && AsDirectoryPort(r) == d;
    PlanShape(bundle, selfId, registry);
    PlanRoutesApart(bundle, selfId, registry);
    NewPortsAvoidReservations(bundle, selfId, registry);
    assert RouteReserved(r, after);
    IngressMirrors(bundle, selfId, service, plan, replicas);
    GeneratedRoutesAre(bundle, selfId, service, identity, plan, c);
    forall a
      ensures Reaches(c, tng, d.port, a) <==> a == Expected(r)
    {
      RouteLeadsHome(c, tng, plan.peerRoutes, r, a);
    }
    assert LeadsTo(c, tng, after, id, d, r);
  }

  lemma IngressMirrors(bundle: MeshBundle, selfId: string, service: MeshService, plan: RoutePlan,
                       replicas: seq<string>)
    ensures var tng := TngConfigOf(bundle, selfId, service, plan, replicas);
      forall i :: i in tng.ingress <==> exists q :: q in plan.peerRoutes && AsIngress(q) == i
  {
    var tng := TngConfigOf(bundle, selfId, service, plan, replicas);
    forall q | q in plan.peerRoutes
      ensures AsIngress(q) in tng.ingress
    {
      var k :| 0 <= k < |plan.peerRoutes| && plan.peerRoutes[k] == q;
      assert tng.ingress[k] == AsIngress(q);
    }
  }

  // ---------------------------------------------------------------- the receiving side

  /** The gateway behind captured port `p` accepts tokens for this audience. */
  ghost predicate Accepts(c: G.Config, p: Port, audience: string) {
    exists r :: r in c.serverRoutes && r.upstreamPort == p && G.Audience(c.serviceId, r.upstreamPort) == audience
  }

  /**
   The token sent towards (service, port) is accepted behind that port of that service exactly when
   the port is one of its mesh ports, and is accepted nowhere else: by no other port of it and by no
   port of any other service.
   */
  lemma TokenAcceptedOnlyAtTarget(bundle: MeshBundle, target: string, registry: Registry,
                                  identity: Option<G.Identity>, service: string, port: Port, at: Port)
    requires Plan(bundle, target, registry).Ok?
    requires GatewayConfigOf(bundle, target, Lookup(bundle.services, target).value, identity,
                             Plan(bundle, target, registry).value.0).Ok?
    ensures var self := Lookup(bundle.services, target).value;
      var c := GatewayConfigOf(bundle, target, self, identity, Plan(bundle, target, registry).value.0).value;
      Accepts(c, at, G.Audience(service, port)) <==>
        (service == target && at == port && port in self.ports && port !in self.ConnectPorts())
  {
    var self := Lookup(bundle.services, target).value;
    var plan := Plan(bundle, target, registry).value.0;
    var meshPorts := ConfidentialPorts(self.ports, self.ConnectPorts());
    G.AudienceInjective(target, at, service, port);
    PlanShape(bundle, target, registry);
    if port in meshPorts {
      assert port in SortedUnique(self.ports);
      var k :| 0 <= k < |SelfPorts(plan.selfRoutes)| && SelfPorts(plan.selfRoutes)[k] == port;
      assert AsServerRoute(plan.selfRoutes[k]) in ServerRoutes(plan.selfRoutes, meshPorts);
    }
  }

  // ---------------------------------------------------------------- from end to end

  /** The files of the guest behind a route, generated from the same bundle. */
  ghost predicate FilesOf(bundle: MeshBundle, target: string, registry: Registry, identity: Option<G.Identity>,
                          replicas: seq<string>, tng: TngConfig, c: G.Config)
  {
    && Plan(bundle, target, registry).Ok?
    && var service, plan := Lookup(bundle.services, target).value, Plan(bundle, target, registry).value.0;
       && GatewayConfigOf(bundle, target, service, identity, plan) == Ok(c)
       && tng == TngConfigOf(bundle, target, service, plan, replicas)
  }

  /** At the target the port is captured by a TNG listener that demands the caller's attestation, and behind
      it the gateway accepts this route's token there and nowhere else. */
  ghost predicate WelcomesAt(tng: TngConfig, c: G.Config, caller: string, r: PeerRoute) {
    && (exists g :: g in tng.egress && g.captureDst == r.remote && g.verify.Some? && caller in g.verify.value)
    && forall at :: Accepts(c, at, G.Audience(r.service, r.remote)) <==> at == r.remote
  }

  /** Every own port is captured by a TNG listener, and a mesh port demands every active peer's attestation. */
  lemma PortCaptured(bundle: MeshBundle, target: string, registry: Registry, identity: Option<G.Identity>,
                     replicas: seq<string>, tng: TngConfig, c: G.Config, port: Port, caller: MeshEntry)
    requires FilesOf(bundle, target, registry, identity, replicas, tng, c)
    requires var service := Lookup(bundle.services, target).value;
      port in service.ports && port !in service.ConnectPorts()
    requires caller in Peers(bundle.services, target)
    ensures exists g :: g in tng.egress && g.captureDst == port && g.verify.Some? && caller.id in g.verify.value
  {
    var service, plan := Lookup(bundle.services, target).value, Plan(bundle, target, registry).value.0;
    PlanShape(bundle, target, registry);
    assert port in SelfPorts(plan.selfRoutes);
    var k :| 0 <= k < |plan.selfRoutes| && SelfPorts(plan.selfRoutes)[k] == port;
    IdsArePeers(Peers(bundle.services, target), caller.id);
    assert tng.egress[k] in tng.egress;
  }

  lemma RouteWelcomed(bundle: MeshBundle, selfId: string, service: MeshService, registry: Registry,
                      identity: Option<G.Identity>, replicas: seq<string>, tng: TngConfig, c: G.Config, r: PeerRoute)
    requires WellFormed(bundle) && Lookup(bundle.services, selfId) == Some(service) && service.Active()
    requires RouteKnown(r, Peers(bundle.services, selfId)) && !r.connectMode
    requires FilesOf(bundle, r.service, registry, identity, replicas, tng, c)
    ensures WelcomesAt(tng, c, selfId, r)
  {
    var e :| e in Peers(bundle.services, selfId) && r.remote in e.service.ports && RouteFor(r, AsPeer(e), r.remote);
    LookupFindsEntry(bundle, e);
    PortCaptured(bundle, e.id, registry, identity, replicas, tng, c, r.remote, MeshEntry(selfId, service));
    forall at ensures Accepts(c, at, G.Audience(r.service, r.remote)) <==> at == r.remote {
      TokenAcceptedOnlyAtTarget(bundle, e.id, registry, identity, e.id, r.remote, at);
    }
  }

  /**
   From end to end: a connection to a published mesh endpoint of one guest arrives only at the remote port
   that the endpoint is registered for, attested as that service and with its token; and the files that
   service generates from the same bundle capture the port, demand the caller's attestation, and accept the
   token there and nowhere else.
   */
  lemma EndpointReachesGateway(bundle: MeshBundle, selfId: string, registry: Registry, service: MeshService,
                               identity: Option<G.Identity>, plan: RoutePlan, after: Registry, c: G.Config,
                               replicas: seq<string>, id: string, d: DirectoryPort, theirRegistry: Registry,
                               theirIdentity: Option<G.Identity>, theirReplicas: seq<string>, theirTng: TngConfig,
                               theirs: G.Config)
    requires WellFormed(bundle)
    requires Plan(bundle, selfId, registry) == Ok((plan, after)) && Lookup(bundle.services, selfId) == Some(service)
    requires GatewayConfigOf(bundle, selfId, service, identity, plan) == Ok(c)
    requires var dir := DirectoryOf(bundle.services, selfId, plan); id in dir && d in dir[id] && d.mode == MeshMode
    requires FilesOf(bundle, id, theirRegistry, theirIdentity, theirReplicas, theirTng, theirs)
    ensures exists r ::
      && r in plan.peerRoutes && !r.connectMode
      && LeadsTo(c, TngConfigOf(bundle, selfId, service, plan, replicas), after, id, d, r)
      && WelcomesAt(theirTng, theirs, selfId, r)
  {
    var tng := TngConfigOf(bundle, selfId, service, plan, replicas);
    DirectoryLeadsHome(bundle, selfId, registry, service, identity, plan, after, c, replicas, id, d);
    var r :| r in plan.peerRoutes && RouteKnown(r, Peers(bundle.services, selfId)) && LeadsTo(c, tng, after, id, d, r);
    assert service.Active() by {
      var _, _ := PlanFinal(bundle, selfId, registry);
    }
    RouteWelcomed(bundle, selfId, service, theirRegistry, theirIdentity, theirReplicas, theirTng, theirs, r);
  }
}
