/**
 The guest's mesh endpoint planner.

 A plan is a left fold of small jobs over an allocation state: one job for each own port, and
 for each active peer a reachability check followed by one job for each of its ports. `Plan`
 is that fold; the method `RuntimePortPlan` is the loop the daemon executes, proved equal to it.
 */
module MeshPlanner {
  import opened Results
  import opened Ports
  import opened MeshSchema

  const TNG_CONTROL_PORT: Port := 50000
  const DAEMON_STATUS_PORT: Port := 8088
  const AGENT_CARD_PORT: Port := 8089
  const TNG_EGRESS_PORT_BASE: Port := 39000
  const GATEWAY_SERVER_PORT_BASE: Port := 39200
  const TNG_INGRESS_PORT_BASE: Port := 39400
  const GATEWAY_CLIENT_PORT_BASE: Port := 39600
  const LAST_INTERNAL_PORT: Port := 60999

  function ControlPorts(): set<Port> {
    {TNG_CONTROL_PORT, DAEMON_STATUS_PORT, AGENT_CARD_PORT}
  }

  datatype PlanError =
    | SelfMissing
    | SelfInactive
    /** Either guard over the persisted reservations: two of them overlap, or one is an own
        application port. Which message comes first depends on map order, so they are one case. */
    | ReservationGuard
    | NoReachableHost(service: string)
    | ListenerGuard(local: Port)
    | Exhausted(base: Port)

  datatype Protocol = Raw | Mcp

  datatype SelfRoute = SelfRoute(port: Port, egress: Port, gateway: Port, protocol: Protocol)

  datatype PeerRoute = PeerRoute(
    service: string, host: string, remote: Port, local: Port, ingress: Port,
    protocol: Protocol, connectMode: bool)

  datatype RoutePlan = RoutePlan(selfRoutes: seq<SelfRoute>, peerRoutes: seq<PeerRoute>)

  /** The planner's local variables. */
  datatype Alloc = Alloc(
    used: set<Port>, client: set<Port>, reserved: set<Port>, registry: Registry,
    selfRoutes: seq<SelfRoute>, peerRoutes: seq<PeerRoute>)

  datatype Peer = Peer(id: string, host: string, connect: set<Port>, mcp: set<Port>)

  datatype Job =
    | OwnPort(port: Port, protocol: Protocol)
    | Reach(id: string, host: Option<string>)
    | PeerPort(peer: Peer, port: Port)

  // ---------------------------------------------------------------- first-fit allocation

  /** The least free port from `base` up to the last internal port. */
  function FirstFree(base: Port, used: set<Port>): (r: Option<Port>)
    ensures r.Some? ==> base <= r.value <= LAST_INTERNAL_PORT && r.value !in used
    ensures r.Some? ==> forall q: Port :: base <= q < r.value ==> q in used
    ensures r.None? ==> forall q: Port :: base <= q <= LAST_INTERNAL_PORT ==> q in used
    decreases LAST_INTERNAL_PORT - base
  {
    if base > LAST_INTERNAL_PORT then None
    else if base !in used then Some(base)
    else if base == LAST_INTERNAL_PORT then None
    else FirstFree(base + 1, used)
  }

  method AllocateInternalPort(base: Port, used: PortSet) returns (r: Result<Port, PlanError>)
    modifies used
    ensures r == match FirstFree(base, old(used.ports)) case Some(p) => Ok(p) case None => Err(Exhausted(base))
    ensures used.ports == old(used.ports) + (if r.Ok? then {r.value} else {})
  {
    var port: int := base;
    while port <= LAST_INTERNAL_PORT
      invariant base <= port
      invariant forall q: Port :: base <= q < port && q <= LAST_INTERNAL_PORT ==> q in used.ports
      invariant used.ports == old(used.ports)
    {
      var added := used.Insert(port);
      if added {
        return Ok(port);
      }
      port := port + 1;
    }
    return Err(Exhausted(base));
  }

  // ---------------------------------------------------------------- the fold

  function OwnPortStep(port: Port, protocol: Protocol, s: Alloc): Result<Alloc, PlanError> {
    match FirstFree(TNG_EGRESS_PORT_BASE, s.used)
    case None => Err(Exhausted(TNG_EGRESS_PORT_BASE))
    case Some(egress) =>
      match FirstFree(GATEWAY_SERVER_PORT_BASE, s.used + {egress})
      case None => Err(Exhausted(GATEWAY_SERVER_PORT_BASE))
      case Some(gateway) =>
        Ok(s.(used := s.used + {egress} + {gateway},
              selfRoutes := s.selfRoutes + [SelfRoute(port, egress, gateway, protocol)]))
  }

  /** The local port of an endpoint: its reservation, or its own number if nobody listens there,
      or the first free client port. */
  function LocalStep(e: Endpoint, s: Alloc): Result<(Alloc, Port), PlanError> {
    if e in s.registry then
      var local := s.registry[e];
      if local in s.client then Err(ListenerGuard(local))
      else Ok((s.(client := s.client + {local}), local))
    else if e.port !in s.reserved && e.port !in s.client then
      Ok((Reserve(e, e.port, s), e.port))
    else
      match FirstFree(GATEWAY_CLIENT_PORT_BASE, s.used)
      case None => Err(Exhausted(GATEWAY_CLIENT_PORT_BASE))
      case Some(local) => Ok((Reserve(e, local, s), local))
  }

  function Reserve(e: Endpoint, local: Port, s: Alloc): Alloc {
    s.(client := s.client + {local}, registry := s.registry[e := local],
       reserved := s.reserved + {local}, used := s.used + {local})
  }

  function PeerPortStep(peer: Peer, port: Port, s: Alloc): Result<Alloc, PlanError> {
    match LocalStep(Endpoint(peer.id, port), s)
    case Err(e) => Err(e)
    case Ok((t, local)) =>
      var protocol := if port in peer.mcp then Mcp else Raw;
      if port in peer.connect then
        Ok(t.(peerRoutes := t.peerRoutes
                            + [PeerRoute(peer.id, peer.host, port, local, local, protocol, true)]))
      else
        match FirstFree(TNG_INGRESS_PORT_BASE, t.used)
        case None => Err(Exhausted(TNG_INGRESS_PORT_BASE))
        case Some(ingress) =>
          Ok(t.(used := t.used + {ingress},
                peerRoutes := t.peerRoutes
                              + [PeerRoute(peer.id, peer.host, port, local, ingress, protocol, false)]))
  }

  function Step(job: Job, s: Alloc): Result<Alloc, PlanError> {
    match job
    case OwnPort(port, protocol) => OwnPortStep(port, protocol, s)
    case Reach(id, host) => if host.None? then Err(NoReachableHost(id)) else Ok(s)
    case PeerPort(peer, port) => PeerPortStep(peer, port, s)
  }

  function Run(jobs: seq<Job>, s: Alloc): Result<Alloc, PlanError> {
    if jobs == [] then Ok(s)
    else
      var n := |jobs| - 1;
      match Run(jobs[..n], s)
      case Err(e) => Err(e)
      case Ok(t) => Step(jobs[n], t)
  }

  // ---------------------------------------------------------------- the jobs of a bundle

  function ProtocolOf(port: Port, mcpPorts: seq<Port>): Protocol {
    if port in mcpPorts then Mcp else Raw
  }

  function OwnJobs(ports: seq<Port>, mcpPorts: seq<Port>): seq<Job> {
    seq(|ports|, i requires 0 <= i < |ports| => OwnPort(ports[i], ProtocolOf(ports[i], mcpPorts)))
  }

  function PeerPortJobs(peer: Peer, ports: seq<Port>): seq<Job> {
    seq(|ports|, i requires 0 <= i < |ports| => PeerPort(peer, ports[i]))
  }

  function AsPeer(e: MeshEntry): Peer {
    var host := e.service.ReachableHost();
    Peer(e.id, if host.Some? then host.value else "", e.service.ConnectPorts(), Elements(e.service.mcpPorts))
  }

  function PeerJobs(e: MeshEntry): seq<Job> {
    [Reach(e.id, e.service.ReachableHost())] + PeerPortJobs(AsPeer(e), SortedUnique(e.service.ports))
  }

  function PeersJobs(peers: seq<MeshEntry>): seq<Job> {
    if peers == [] then []
    else PeersJobs(peers[..|peers| - 1]) + PeerJobs(peers[|peers| - 1])
  }

  /** The active services other than the guest itself, in key order. */
  function Peers(services: seq<MeshEntry>, selfId: string): (r: seq<MeshEntry>)
    ensures forall e :: e in r <==> e in services && e.id != selfId && e.service.Active()
  {
    if services == [] then []
    else
      var rest := Peers(services[1..], selfId);
      if services[0].id != selfId && services[0].service.Active() then [services[0]] + rest else rest
  }

  function Jobs(bundle: MeshBundle, selfId: string, service: MeshService): seq<Job> {
    OwnJobs(SortedUnique(service.ports), service.mcpPorts) + PeersJobs(Peers(bundle.services, selfId))
  }

  // ---------------------------------------------------------------- the plan

  /** Persisted reservations are pairwise distinct and none is an own application port. */
  ghost predicate ReservationsSound(registry: Registry, ownPorts: seq<Port>) {
    Injective(registry) && forall e :: e in registry ==> registry[e] !in ownPorts
  }

  function Initial(bundle: MeshBundle, service: MeshService, registry: Registry): Alloc {
    Alloc(
      ControlPorts() + registry.Values + ActivePorts(bundle.services),
      ControlPorts() + Elements(service.ports),
      registry.Values, registry, [], [])
  }

  ghost function Plan(bundle: MeshBundle, selfId: string, registry: Registry)
    : Result<(RoutePlan, Registry), PlanError>
  {
    match Lookup(bundle.services, selfId)
    case None => Err(SelfMissing)
    case Some(service) =>
      if !service.Active() then Err(SelfInactive)
      else if !ReservationsSound(registry, service.ports) then Err(ReservationGuard)
      else
        match Run(Jobs(bundle, selfId, service), Initial(bundle, service, registry))
        case Err(e) => Err(e)
        case Ok(s) => Ok((RoutePlan(s.selfRoutes, s.peerRoutes), s.registry))
  }

  // ---------------------------------------------------------------- folding in pieces

  lemma {:induction false} RunAppend(a: seq<Job>, b: seq<Job>, s: Alloc)
    ensures Run(a + b, s) == match Run(a, s) case Err(e) => Err(e) case Ok(t) => Run(b, t)
  {
    if b == [] {
      assert a + b == a;
    } else {
      var n := |b| - 1;
      assert (a + b)[..|a + b| - 1] == a + b[..n];
      RunAppend(a, b[..n], s);
    }
  }

  lemma RunSnoc(jobs: seq<Job>, j: Job, s: Alloc)
    ensures Run(jobs + [j], s) == match Run(jobs, s) case Err(e) => Err(e) case Ok(t) => Step(j, t)
  {
    assert (jobs + [j])[..|jobs|] == jobs;
  }

  /** The first failing job decides the outcome. */
  lemma RunErrSticks(jobs: seq<Job>, k: nat, s: Alloc)
    requires k <= |jobs| && Run(jobs[..k], s).Err?
    ensures Run(jobs, s) == Run(jobs[..k], s)
  {
    RunAppend(jobs[..k], jobs[k..], s);
    assert jobs[..k] + jobs[k..] == jobs;
  }

  lemma PeersJobsSnoc(peers: seq<MeshEntry>, i: nat)
    requires i < |peers|
    ensures PeersJobs(peers[..i + 1]) == PeersJobs(peers[..i]) + PeerJobs(peers[i])
  {
    assert peers[..i + 1][..i] == peers[..i];
  }

  /** A failure among the first peers is the outcome for all of them. */
  lemma {:induction false} PeersErrSticks(peers: seq<MeshEntry>, i: nat, s: Alloc)
    requires i <= |peers| && Run(PeersJobs(peers[..i]), s).Err?
    ensures Run(PeersJobs(peers), s) == Run(PeersJobs(peers[..i]), s)
    decreases |peers| - i
  {
    if i == |peers| {
      assert peers[..i] == peers;
    } else {
      PeersJobsSnoc(peers, i);
      RunAppend(PeersJobs(peers[..i]), PeerJobs(peers[i]), s);
      PeersErrSticks(peers, i + 1, s);
    }
  }

  // ---------------------------------------------------------------- the daemon's loops

  /** The registry the planner edits in place. */
  class ClientRegistry {
    var ports: Registry

    constructor (ports: Registry)
      ensures this.ports == ports
    {
      this.ports := ports;
    }
  }

  method CheckReservations(registry: Registry, ownPorts: seq<Port>) returns (ok: bool, reserved: set<Port>)
    ensures ok <==> ReservationsSound(registry, ownPorts)
    ensures ok ==> reserved == registry.Values
  {
    reserved := {};
    var todo := registry.Keys;
    ghost var done: set<Endpoint> := {};
    while todo != {}
      invariant done + todo == registry.Keys && done !! todo
      invariant reserved == set e | e in done :: registry[e]
      invariant forall a, b :: a in done && b in done && registry[a] == registry[b] ==> a == b
      invariant forall e :: e in done ==> registry[e] !in ownPorts
    {
      var e :| e in todo;
      if registry[e] in reserved || registry[e] in ownPorts {
        return false, reserved;
      }
      reserved := reserved + {registry[e]};
      todo := todo - {e};
      done := done + {e};
    }
    ok := true;
  }

  /** One turn of the loop over the guest's own ports. */
  method PlanOwnPort(port: Port, protocol: Protocol, used: PortSet, ghost s: Alloc)
    returns (r: Result<SelfRoute, PlanError>)
    requires s.used == used.ports
    modifies used
    ensures match OwnPortStep(port, protocol, s)
      case Ok(t) => r.Ok? && t == s.(used := used.ports, selfRoutes := s.selfRoutes + [r.value])
      case Err(e) => r == Err(e)
  {
    var egress := AllocateInternalPort(TNG_EGRESS_PORT_BASE, used);
    if egress.Err? {
      return Err(egress.error);
    }
    var gateway := AllocateInternalPort(GATEWAY_SERVER_PORT_BASE, used);
    if gateway.Err? {
      return Err(gateway.error);
    }
    r := Ok(SelfRoute(port, egress.value, gateway.value, protocol));
  }

  /** The `local_port` match of the loop over peer ports. */
  method PlanLocal(endpoint: Endpoint, used: PortSet, registry: ClientRegistry,
                   client: set<Port>, reserved: set<Port>, ghost s: Alloc)
    returns (r: Result<Port, PlanError>, client': set<Port>, reserved': set<Port>)
    requires s.used == used.ports && s.client == client && s.reserved == reserved && s.registry == registry.ports
    modifies used, registry
    ensures match LocalStep(endpoint, s)
      case Ok((t, local)) => r == Ok(local)
        && t == s.(used := used.ports, client := client', reserved := reserved', registry := registry.ports)
      case Err(e) => r == Err(e)
    ensures Extends(s.registry, registry.ports)
  {
    client', reserved' := client, reserved;
    if endpoint in registry.ports {
      var local := registry.ports[endpoint];
      if local in client {
        return Err(ListenerGuard(local)), client', reserved';
      }
      client' := client' + {local};
      return Ok(local), client', reserved';
    }
    var local := endpoint.port;
    if endpoint.port in reserved || endpoint.port in client {
      var free := AllocateInternalPort(GATEWAY_CLIENT_PORT_BASE, used);
      if free.Err? {
        return Err(free.error), client', reserved';
      }
      local := free.value;
    }
    client' := client' + {local};
    registry.ports := registry.ports[endpoint := local];
    reserved' := reserved' + {local};
    used.ports := used.ports + {local};
    r := Ok(local);
  }

  /** One turn of the loop over a peer's ports. */
  method PlanPeerPort(peer: Peer, port: Port, used: PortSet, registry: ClientRegistry,
                      client: set<Port>, reserved: set<Port>, ghost s: Alloc)
    returns (r: Result<PeerRoute, PlanError>, client': set<Port>, reserved': set<Port>)
    requires s.used == used.ports && s.client == client && s.reserved == reserved && s.registry == registry.ports
    modifies used, registry
    ensures match PeerPortStep(peer, port, s)
      case Ok(t) => r.Ok?
        && t == s.(used := used.ports, client := client', reserved := reserved', registry := registry.ports,
                   peerRoutes := s.peerRoutes + [r.value])
      case Err(e) => r == Err(e)
    ensures Extends(s.registry, registry.ports)
  {
    var local;
    local, client', reserved' := PlanLocal(Endpoint(peer.id, port), used, registry, client, reserved, s);
    if local.Err? {
      return Err(local.error), client', reserved';
    }
    var ingress := local;
    if port !in peer.connect {
      ingress := AllocateInternalPort(TNG_INGRESS_PORT_BASE, used);
      if ingress.Err? {
        return Err(ingress.error), client', reserved';
      }
    }
    r := Ok(PeerRoute(peer.id, peer.host, port, local.value, ingress.value,
                      if port in peer.mcp then Mcp else Raw, port in peer.connect));
  }

  /** What one more job makes of a run that has succeeded so far. */
  lemma NextJob(jobs: seq<Job>, j: nat, s0: Alloc, s: Alloc)
    requires j < |jobs| && Run(jobs[..j], s0) == Ok(s)
    ensures Run(jobs[..j + 1], s0) == Step(jobs[j], s)
    ensures Step(jobs[j], s).Err? ==> Run(jobs, s0) == Step(jobs[j], s)
  {
    RunSnoc(jobs[..j], jobs[j], s0);
    assert jobs[..j] + [jobs[j]] == jobs[..j + 1];
    if Step(jobs[j], s).Err? {
      RunErrSticks(jobs, j + 1, s0);
    }
  }

  method PlanOwnPorts(ports: seq<Port>, mcpPorts: seq<Port>, used: PortSet, ghost s0: Alloc)
    returns (r: Result<seq<SelfRoute>, PlanError>)
    requires s0.used == used.ports && s0.selfRoutes == []
    modifies used
    ensures match Run(OwnJobs(ports, mcpPorts), s0)
      case Ok(t) => r.Ok? && t == s0.(used := used.ports, selfRoutes := r.value)
      case Err(e) => r == Err(e)
  {
    var routes: seq<SelfRoute> := [];
    ghost var jobs := OwnJobs(ports, mcpPorts);
    for i := 0 to |ports|
      invariant Run(jobs[..i], s0) == Ok(s0.(used := used.ports, selfRoutes := routes))
    {
      NextJob(jobs, i, s0, s0.(used := used.ports, selfRoutes := routes));
      var route := PlanOwnPort(ports[i], ProtocolOf(ports[i], mcpPorts), used,
                               s0.(used := used.ports, selfRoutes := routes));
      if route.Err? {
        return Err(route.error);
      }
      routes := routes + [route.value];
    }
    assert jobs[..|ports|] == jobs;
    r := Ok(routes);
  }

  /** A run over a peer's jobs begins with the reachability check. */
  lemma ReachFirst(e: MeshEntry, s0: Alloc)
    ensures PeerRun(e, 0, s0) == if e.service.ReachableHost().None? then Err(NoReachableHost(e.id)) else Ok(s0)
    ensures e.service.ReachableHost().None? ==> Run(PeerJobs(e), s0) == Err(NoReachableHost(e.id))
  {
    assert PeerJobs(e)[..0] == [];
    NextJob(PeerJobs(e), 0, s0, s0);
  }

  /** The run after the check and `j` ports. */
  function PeerRun(e: MeshEntry, j: nat, s0: Alloc): Result<Alloc, PlanError>
    requires j <= |SortedUnique(e.service.ports)|
  {
    Run(PeerJobs(e)[..j + 1], s0)
  }

  lemma NextPeerPort(e: MeshEntry, j: nat, s0: Alloc, s: Alloc)
    requires j < |SortedUnique(e.service.ports)| && PeerRun(e, j, s0) == Ok(s)
    ensures PeerRun(e, j + 1, s0) == PeerPortStep(AsPeer(e), SortedUnique(e.service.ports)[j], s)
    ensures PeerRun(e, j + 1, s0).Err? ==> Run(PeerJobs(e), s0) == PeerRun(e, j + 1, s0)
  {
    assert PeerJobs(e)[j + 1] == PeerPort(AsPeer(e), SortedUnique(e.service.ports)[j]);
    NextJob(PeerJobs(e), j + 1, s0, s);
  }

  lemma WholePeerRun(e: MeshEntry, s0: Alloc)
    ensures PeerRun(e, |SortedUnique(e.service.ports)|, s0) == Run(PeerJobs(e), s0)
  {
    assert PeerJobs(e)[..|SortedUnique(e.service.ports)| + 1] == PeerJobs(e);
  }

  /** One turn of the loop over peers. */
  method PlanPeer(e: MeshEntry, used: PortSet, registry: ClientRegistry,
                  client: set<Port>, reserved: set<Port>, ghost s0: Alloc)
    returns (r: Result<seq<PeerRoute>, PlanError>, client': set<Port>, reserved': set<Port>)
    requires s0.used == used.ports && s0.client == client && s0.reserved == reserved
    requires s0.registry == registry.ports
    modifies used, registry
    ensures match Run(PeerJobs(e), s0)
      case Ok(t) => r.Ok?
        && t == s0.(used := used.ports, client := client', reserved := reserved', registry := registry.ports,
                    peerRoutes := s0.peerRoutes + r.value)
      case Err(err) => r == Err(err)
    ensures Extends(s0.registry, registry.ports)
  {
    client', reserved' := client, reserved;
    ghost var s := s0;
    ReachFirst(e, s0);
    var host := e.service.ReachableHost();
    if host.None? {
      return Err(NoReachableHost(e.id)), client', reserved';
    }
    var routes: seq<PeerRoute> := [];
    var peer, ports := AsPeer(e), SortedUnique(e.service.ports);
    for j := 0 to |ports|
      invariant s == s0.(used := used.ports, client := client', reserved := reserved',
                         registry := registry.ports, peerRoutes := s0.peerRoutes + routes)
      invariant PeerRun(e, j, s0) == Ok(s)
      invariant Extends(s0.registry, registry.ports)
    {
      NextPeerPort(e, j, s0, s);
      var route;
      route, client', reserved' := PlanPeerPort(peer, ports[j], used, registry, client', reserved', s);
      if route.Err? {
        return Err(route.error), client', reserved';
      }
      assert s0.peerRoutes + routes + [route.value] == s0.peerRoutes + (routes + [route.value]);
      routes := routes + [route.value];
      s := s0.(used := used.ports, client := client', reserved := reserved',
               registry := registry.ports, peerRoutes := s0.peerRoutes + routes);
    }
    WholePeerRun(e, s0);
    r := Ok(routes);
  }

  method PlanPeers(peers: seq<MeshEntry>, used: PortSet, registry: ClientRegistry,
                   client: set<Port>, reserved: set<Port>, ghost s0: Alloc)
    returns (r: Result<seq<PeerRoute>, PlanError>)
    requires s0.used == used.ports && s0.client == client && s0.reserved == reserved
    requires s0.registry == registry.ports && s0.peerRoutes == []
    modifies used, registry
    ensures match Run(PeersJobs(peers), s0)
      case Ok(t) => r.Ok? && t.peerRoutes == r.value && t.selfRoutes == s0.selfRoutes && t.registry == registry.ports
      case Err(e) => r == Err(e)
    ensures Extends(s0.registry, registry.ports)
  {
    var routes: seq<PeerRoute> := [];
    var client', reserved' := client, reserved;
    ghost var s := s0;
    for i := 0 to |peers|
      invariant s == s0.(used := used.ports, client := client', reserved := reserved',
                         registry := registry.ports, peerRoutes := routes)
      invariant Run(PeersJobs(peers[..i]), s0) == Ok(s)
      invariant Extends(s0.registry, registry.ports)
    {
      PeersJobsSnoc(peers, i);
      RunAppend(PeersJobs(peers[..i]), PeerJobs(peers[i]), s0);
      var more;
      more, client', reserved' := PlanPeer(peers[i], used, registry, client', reserved', s);
      if more.Err? {
        PeersErrSticks(peers, i + 1, s0);
        return Err(more.error);
      }
      routes := routes + more.value;
      s := s0.(used := used.ports, client := client', reserved := reserved',
               registry := registry.ports, peerRoutes := routes);
    }
    assert peers[..|peers|] == peers;
    r := Ok(routes);
  }

  /** `runtime_port_plan_with_registry`: edits the registry in place and returns the routes. */
  method RuntimePortPlan(bundle: MeshBundle, selfId: string, registry: ClientRegistry)
    returns (r: Result<RoutePlan, PlanError>)
    modifies registry
    ensures match Plan(bundle, selfId, old(registry.ports))
      case Ok((plan, reservations)) => r == Ok(plan) && registry.ports == reservations
      case Err(e) => r == Err(e) && Extends(old(registry.ports), registry.ports)
  {
    var found := Lookup(bundle.services, selfId);
    if found.None? {
      return Err(SelfMissing);
    }
    var service := found.value;
    if !service.Active() {
      return Err(SelfInactive);
    }
    var sound, reserved := CheckReservations(registry.ports, service.ports);
    if !sound {
      return Err(ReservationGuard);
    }
    var used := new PortSet(ControlPorts() + reserved + ActivePorts(bundle.services));
    var client := ControlPorts() + Elements(service.ports);
    var selfPorts := SortedUnique(service.ports);
    var peers := Peers(bundle.services, selfId);

    ghost var s := Initial(bundle, service, registry.ports);
    RunAppend(OwnJobs(selfPorts, service.mcpPorts), PeersJobs(peers), s);
    var selfRoutes := PlanOwnPorts(selfPorts, service.mcpPorts, used, s);
    if selfRoutes.Err? {
      return Err(selfRoutes.error);
    }
    s := s.(used := used.ports, selfRoutes := selfRoutes.value);
    var peerRoutes := PlanPeers(peers, used, registry, client, reserved, s);
    if peerRoutes.Err? {
      return Err(peerRoutes.error);
    }
    r := Ok(RoutePlan(selfRoutes.value, peerRoutes.value));
  }
}
