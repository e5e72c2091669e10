/**
 What every successful plan keeps: listeners never collide, reservations only grow and stay
 injective, and planning again from the resulting registry changes nothing.
 */
module MeshPlanSafety {
  import opened Results
  import opened Ports
  import opened MeshSchema
  import opened MeshPlanner

  // ---------------------------------------------------------------- listener lists

  function Egress(routes: seq<SelfRoute>): seq<Port> {
    seq(|routes|, i requires 0 <= i < |routes| => routes[i].egress)
  }

  function GatewayListeners(routes: seq<SelfRoute>): seq<Port> {
    seq(|routes|, i requires 0 <= i < |routes| => routes[i].gateway)
  }

  function Locals(routes: seq<PeerRoute>): seq<Port> {
    seq(|routes|, i requires 0 <= i < |routes| => routes[i].local)
  }

  /** Ingress ports of the non-connect routes; a connect route listens on its local port itself. */
  function MeshIngress(routes: seq<PeerRoute>): seq<Port> {
    if routes == [] then []
    else
      var n := |routes| - 1;
      MeshIngress(routes[..n]) + if routes[n].connectMode then [] else [routes[n].ingress]
  }

  /** Ports chosen for the hidden TNG and gateway listeners. */
  ghost function Hidden(selfRoutes: seq<SelfRoute>, peerRoutes: seq<PeerRoute>): multiset<Port> {
    multiset(Egress(selfRoutes)) + multiset(GatewayListeners(selfRoutes)) + multiset(MeshIngress(peerRoutes))
  }

  /** Every port the guest listens on under a plan. */
  ghost function Listeners(ownPorts: seq<Port>, plan: RoutePlan): seq<Port> {
    [TNG_CONTROL_PORT, DAEMON_STATUS_PORT, AGENT_CARD_PORT] + SortedUnique(ownPorts)
    + Egress(plan.selfRoutes) + GatewayListeners(plan.selfRoutes)
    + Locals(plan.peerRoutes) + MeshIngress(plan.peerRoutes)
  }

  // ---------------------------------------------------------------- the loop invariant

  ghost predicate RouteReserved(r: PeerRoute, registry: Registry) {
    && Endpoint(r.service, r.remote) in registry
    && registry[Endpoint(r.service, r.remote)] == r.local
    && (r.connectMode ==> r.ingress == r.local)
  }

  ghost predicate Covers(registry: Registry, reserved: set<Port>) {
    forall e :: e in registry ==> registry[e] in reserved
  }

  /** `base` are the control ports and all active application ports, `own` the guest's own ports. */
  ghost predicate Sets(s: Alloc, base: set<Port>, own: set<Port>) {
    && ControlPorts() + own <= s.client <= s.used
    && own <= base <= s.used
    && s.reserved <= s.used && s.reserved !! own
    && Covers(s.registry, s.reserved)
    && Injective(s.registry)
  }

  /** Hidden listeners are single, taken, and away from every port a client may see. */
  ghost predicate Apart(hidden: multiset<Port>, s: Alloc, base: set<Port>) {
    forall x :: x in hidden ==>
      hidden[x] == 1 && x in s.used && x !in base && x !in s.client && x !in s.reserved
  }

  ghost predicate LocalsApart(locals: multiset<Port>, s: Alloc, own: set<Port>) {
    forall x :: x in locals ==> locals[x] == 1 && x in s.client && x !in ControlPorts() + own
  }

  ghost predicate RoutesReserved(routes: seq<PeerRoute>, registry: Registry) {
    forall r :: r in routes ==> RouteReserved(r, registry)
  }

  ghost predicate Inv(s: Alloc, base: set<Port>, own: set<Port>) {
    && Sets(s, base, own)
    && Apart(Hidden(s.selfRoutes, s.peerRoutes), s, base)
    && LocalsApart(multiset(Locals(s.peerRoutes)), s, own)
    && RoutesReserved(s.peerRoutes, s.registry)
  }

  /** What one job, and hence any run of jobs, only adds to. */
  ghost predicate Grows(s: Alloc, t: Alloc) {
    && Extends(s.registry, t.registry)
    && Hidden(s.selfRoutes, s.peerRoutes) <= Hidden(t.selfRoutes, t.peerRoutes)
  }

  /** Jobs of a bundle only name active application ports. */
  ghost predicate JobWithin(job: Job, base: set<Port>) {
    job.PeerPort? ==> job.port in base
  }

  ghost predicate JobsAllWithin(jobs: seq<Job>, base: set<Port>) {
    forall j :: j in jobs ==> JobWithin(j, base)
  }

  lemma AddSelfRoute(routes: seq<SelfRoute>, r: SelfRoute)
    ensures Egress(routes + [r]) == Egress(routes) + [r.egress]
    ensures GatewayListeners(routes + [r]) == GatewayListeners(routes) + [r.gateway]
  {
  }

  lemma AddPeerRoute(routes: seq<PeerRoute>, r: PeerRoute)
    ensures Locals(routes + [r]) == Locals(routes) + [r.local]
    ensures MeshIngress(routes + [r]) == MeshIngress(routes) + if r.connectMode then [] else [r.ingress]
  {
    assert (routes + [r])[..|routes|] == routes;
  }

  /** Taking a free port for a hidden listener keeps hidden listeners apart. */
  lemma HidePort(hidden: multiset<Port>, x: Port, s: Alloc, t: Alloc, base: set<Port>, own: set<Port>)
    requires Sets(s, base, own) && Apart(hidden, s, base)
    requires x !in s.used && t.used == s.used + {x} && t.client == s.client && t.reserved == s.reserved
    ensures Apart(hidden + multiset{x}, t, base)
  {
    assert x !in hidden;
  }

  lemma OwnPortKeepsInv(port: Port, protocol: Protocol, s: Alloc, base: set<Port>, own: set<Port>)
    requires Inv(s, base, own)
    requires OwnPortStep(port, protocol, s).Ok?
    ensures Inv(OwnPortStep(port, protocol, s).value, base, own)
    ensures Grows(s, OwnPortStep(port, protocol, s).value)
  {
    var egress := FirstFree(TNG_EGRESS_PORT_BASE, s.used).value;
    var mid := s.(used := s.used + {egress});
    var gateway := FirstFree(GATEWAY_SERVER_PORT_BASE, mid.used).value;
    var t := OwnPortStep(port, protocol, s).value;
    AddSelfRoute(s.selfRoutes, SelfRoute(port, egress, gateway, protocol));
    var hidden := Hidden(s.selfRoutes, s.peerRoutes);
    HidePort(hidden, egress, s, mid, base, own);
    HidePort(hidden + multiset{egress}, gateway, mid, t, base, own);
    assert Hidden(t.selfRoutes, t.peerRoutes) == hidden + multiset{egress} + multiset{gateway};
  }

  /** A fresh reservation keeps the port sets consistent. */
  lemma ReserveKeepsSets(e: Endpoint, local: Port, s: Alloc, base: set<Port>, own: set<Port>)
    requires Sets(s, base, own) && e !in s.registry
    requires local !in s.reserved && local !in s.client
    ensures Sets(Reserve(e, local, s), base, own)
    ensures Extends(s.registry, Reserve(e, local, s).registry)
  {
  }

  lemma LocalKeepsInv(e: Endpoint, s: Alloc, base: set<Port>, own: set<Port>, hidden: multiset<Port>)
    requires Sets(s, base, own) && Apart(hidden, s, base) && e.port in base
    requires LocalStep(e, s).Ok?
    ensures var (t, local) := LocalStep(e, s).value;
      && Sets(t, base, own) && Apart(hidden, t, base)
      && t == s.(used := t.used, client := s.client + {local}, reserved := t.reserved, registry := t.registry)
      && Extends(s.registry, t.registry) && local !in s.client
      && e in t.registry && t.registry[e] == local
  {
    var (t, local) := LocalStep(e, s).value;
    if e in s.registry {
      assert local in s.reserved;
    } else {
      ReserveKeepsSets(e, local, s, base, own);
      assert local !in hidden;
    }
  }

  lemma RoutesStayReserved(routes: seq<PeerRoute>, r: PeerRoute, before: Registry, after: Registry)
    requires RoutesReserved(routes, before) && Extends(before, after) && RouteReserved(r, after)
    ensures RoutesReserved(routes + [r], after)
  {
    forall q | q in routes + [r]
      ensures RouteReserved(q, after)
    {
      assert q in routes ==> RouteReserved(q, before);
    }
  }

  lemma HiddenAfter(s: Alloc, u: Alloc, r: PeerRoute)
    requires u.selfRoutes == s.selfRoutes && u.peerRoutes == s.peerRoutes + [r]
    ensures Hidden(u.selfRoutes, u.peerRoutes)
         == Hidden(s.selfRoutes, s.peerRoutes) + if r.connectMode then multiset{} else multiset{r.ingress}
  {
    AddPeerRoute(s.peerRoutes, r);
  }

  /** A new route's local port joins the others. */
  lemma LocalJoins(s: Alloc, u: Alloc, r: PeerRoute, own: set<Port>)
    requires RoutesReserved(s.peerRoutes, s.registry) && Extends(s.registry, u.registry)
    requires RouteReserved(r, u.registry) && u.peerRoutes == s.peerRoutes + [r]
    requires LocalsApart(multiset(Locals(s.peerRoutes)), s, own)
    requires ControlPorts() + own <= s.client && r.local !in s.client && u.client == s.client + {r.local}
    ensures RoutesReserved(u.peerRoutes, u.registry) && LocalsApart(multiset(Locals(u.peerRoutes)), u, own)
  {
    var locals := multiset(Locals(s.peerRoutes));
    AddPeerRoute(s.peerRoutes, r);
    RoutesStayReserved(s.peerRoutes, r, s.registry, u.registry);
    assert r.local !in locals;
    assert multiset(Locals(u.peerRoutes)) == locals + multiset{r.local};
  }

  /** A connect endpoint adds its local port and no hidden listener. */
  lemma ConnectPortKeepsInv(peer: Peer, port: Port, s: Alloc, base: set<Port>, own: set<Port>)
    requires Inv(s, base, own) && port in base && port in peer.connect
    requires PeerPortStep(peer, port, s).Ok?
    ensures Inv(PeerPortStep(peer, port, s).value, base, own)
    ensures Grows(s, PeerPortStep(peer, port, s).value)
  {
    var hidden := Hidden(s.selfRoutes, s.peerRoutes);
    LocalKeepsInv(Endpoint(peer.id, port), s, base, own, hidden);
    var (t, local) := LocalStep(Endpoint(peer.id, port), s).value;
    var u := PeerPortStep(peer, port, s).value;
    var r := u.peerRoutes[|s.peerRoutes|];
    assert u.peerRoutes == s.peerRoutes + [r];
    LocalJoins(s, u, r, own);
    HiddenAfter(s, u, r);
  }

  /** A mesh endpoint adds its local port and a hidden ingress listener. */
  lemma MeshPortKeepsInv(peer: Peer, port: Port, s: Alloc, base: set<Port>, own: set<Port>)
    requires Inv(s, base, own) && port in base && port !in peer.connect
    requires PeerPortStep(peer, port, s).Ok?
    ensures Inv(PeerPortStep(peer, port, s).value, base, own)
    ensures Grows(s, PeerPortStep(peer, port, s).value)
  {
    var hidden := Hidden(s.selfRoutes, s.peerRoutes);
    LocalKeepsInv(Endpoint(peer.id, port), s, base, own, hidden);
    var (t, local) := LocalStep(Endpoint(peer.id, port), s).value;
    var u := PeerPortStep(peer, port, s).value;
    var r := u.peerRoutes[|s.peerRoutes|];
    assert u.peerRoutes == s.peerRoutes + [r];
    LocalJoins(s, u, r, own);
    HidePort(hidden, r.ingress, t, u, base, own);
    HiddenAfter(s, u, r);
  }

  lemma StepKeepsInv(job: Job, s: Alloc, base: set<Port>, own: set<Port>)
    requires Inv(s, base, own) && JobWithin(job, base)
    requires Step(job, s).Ok?
    ensures Inv(Step(job, s).value, base, own)
    ensures Grows(s, Step(job, s).value)
  {
    match job
    case OwnPort(port, protocol) => OwnPortKeepsInv(port, protocol, s, base, own);
    case Reach(_, _) =>
    case PeerPort(peer, port) =>
      if port in peer.connect {
        ConnectPortKeepsInv(peer, port, s, base, own);
      } else {
        MeshPortKeepsInv(peer, port, s, base, own);
      }
  }

  lemma GrowsTransitive(s: Alloc, t: Alloc, u: Alloc)
    requires Grows(s, t) && Grows(t, u)
    ensures Grows(s, u)
  {
  }

  lemma {:induction false} RunKeepsInv(jobs: seq<Job>, s: Alloc, base: set<Port>, own: set<Port>)
    requires Inv(s, base, own) && JobsAllWithin(jobs, base)
    requires Run(jobs, s).Ok?
    ensures Inv(Run(jobs, s).value, base, own)
    ensures Grows(s, Run(jobs, s).value)
  {
    if jobs != [] {
      var n := |jobs| - 1;
      var t := Run(jobs[..n], s).value;
      RunKeepsInv(jobs[..n], s, base, own);
      StepKeepsInv(jobs[n], t, base, own);
      GrowsTransitive(s, t, Run(jobs, s).value);
    }
  }

  // ---------------------------------------------------------------- from jobs to plans

  ghost function Base(bundle: MeshBundle): set<Port> {
    ControlPorts() + ActivePorts(bundle.services)
  }

  lemma PeerJobsWithin(e: MeshEntry, base: set<Port>)
    requires forall p :: p in e.service.ports ==> p in base
    ensures JobsAllWithin(PeerJobs(e), base)
  {
    forall j | j in PeerJobs(e)
      ensures JobWithin(j, base)
    {
      var k :| 0 <= k < |PeerJobs(e)| && PeerJobs(e)[k] == j;
      if k > 0 {
        assert j.port == SortedUnique(e.service.ports)[k - 1];
        assert j.port in SortedUnique(e.service.ports);
      }
    }
  }

  lemma {:induction false} PeersJobsWithin(peers: seq<MeshEntry>, base: set<Port>)
    requires forall e, p :: e in peers && p in e.service.ports ==> p in base
    ensures JobsAllWithin(PeersJobs(peers), base)
  {
    if peers != [] {
      var n := |peers| - 1;
      PeersJobsWithin(peers[..n], base);
      PeerJobsWithin(peers[n], base);
    }
  }

  lemma JobsWithin(bundle: MeshBundle, selfId: string, service: MeshService)
    ensures JobsAllWithin(Jobs(bundle, selfId, service), Base(bundle))
  {
    PeersJobsWithin(Peers(bundle.services, selfId), Base(bundle));
  }

  lemma InitialInv(bundle: MeshBundle, service: MeshService, registry: Registry)
    requires service.Active() && exists id :: MeshEntry(id, service) in bundle.services
    requires ReservationsSound(registry, service.ports)
    ensures Inv(Initial(bundle, service, registry), Base(bundle), Elements(service.ports))
  {
    var id :| MeshEntry(id, service) in bundle.services;
    assert forall p :: p in service.ports ==> p in ActivePorts(bundle.services);
    var s := Initial(bundle, service, registry);
    assert Hidden(s.selfRoutes, s.peerRoutes) == multiset{};
  }

  /** The final allocation state of a successful plan. */
  lemma PlanFinal(bundle: MeshBundle, selfId: string, registry: Registry) returns (service: MeshService, s: Alloc)
    requires Plan(bundle, selfId, registry).Ok?
    ensures Lookup(bundle.services, selfId) == Some(service) && service.Active()
    ensures ReservationsSound(registry, service.ports)
    ensures Run(Jobs(bundle, selfId, service), Initial(bundle, service, registry)) == Ok(s)
    ensures Plan(bundle, selfId, registry) == Ok((RoutePlan(s.selfRoutes, s.peerRoutes), s.registry))
    ensures Inv(s, Base(bundle), Elements(service.ports))
    ensures Extends(registry, s.registry)
    ensures registry.Values <= s.registry.Values
  {
    service := Lookup(bundle.services, selfId).value;
    s := Run(Jobs(bundle, selfId, service), Initial(bundle, service, registry)).value;
    assert MeshEntry(selfId, service) in bundle.services;
    InitialInv(bundle, service, registry);
    JobsWithin(bundle, selfId, service);
    RunKeepsInv(Jobs(bundle, selfId, service), Initial(bundle, service, registry), Base(bundle),
                Elements(service.ports));
    forall x | x in registry.Values
      ensures x in s.registry.Values
    {
      var e :| e in registry && registry[e] == x;
      assert s.registry[e] == x;
    }
  }

  // ---------------------------------------------------------------- listener disjointness

  /** Each of the four kinds of listeners has a port at most once, and no two kinds share it. */
  lemma ListenerOnce(x: Port, control: multiset<Port>, own: multiset<Port>, locals: multiset<Port>,
                     hidden: multiset<Port>, s: Alloc, base: set<Port>, ownPorts: set<Port>)
    requires Apart(hidden, s, base) && LocalsApart(locals, s, ownPorts)
    requires ControlPorts() <= base && ownPorts <= base && ownPorts !! ControlPorts()
    requires control[x] <= 1 && (x in control <==> x in ControlPorts())
    requires own[x] <= 1 && (x in own <==> x in ownPorts)
    ensures control[x] + own[x] + locals[x] + hidden[x] <= 1
  {
  }

  lemma ListenersAre(ownPorts: seq<Port>, plan: RoutePlan, control: seq<Port>)
    requires control == [TNG_CONTROL_PORT, DAEMON_STATUS_PORT, AGENT_CARD_PORT]
    ensures multiset(Listeners(ownPorts, plan))
         == multiset(control) + multiset(SortedUnique(ownPorts)) + multiset(Locals(plan.peerRoutes))
            + Hidden(plan.selfRoutes, plan.peerRoutes)
  {
  }

  lemma ControlAndOwnOnce(x: Port, ownPorts: seq<Port>, control: seq<Port>)
    requires control == [TNG_CONTROL_PORT, DAEMON_STATUS_PORT, AGENT_CARD_PORT]
    ensures multiset(control)[x] <= 1 && (x in multiset(control) <==> x in ControlPorts())
    ensures multiset(SortedUnique(ownPorts))[x] <= 1
    ensures x in multiset(SortedUnique(ownPorts)) <==> x in Elements(ownPorts)
  {
    DistinctIsSingleMultiplicity(SortedUnique(ownPorts));
    DistinctIsSingleMultiplicity(control);
    assert x in control <==> x in ControlPorts();
    assert x in SortedUnique(ownPorts) <==> x in Elements(ownPorts);
  }

  lemma ListenersSingle(ownPorts: seq<Port>, s: Alloc, base: set<Port>)
    requires Inv(s, base, Elements(ownPorts)) && ControlPorts() <= base
    requires Elements(ownPorts) !! ControlPorts()
    ensures Distinct(Listeners(ownPorts, RoutePlan(s.selfRoutes, s.peerRoutes)))
  {
    var control: seq<Port> := [TNG_CONTROL_PORT, DAEMON_STATUS_PORT, AGENT_CARD_PORT];
    var plan := RoutePlan(s.selfRoutes, s.peerRoutes);
    ListenersAre(ownPorts, plan, control);
    forall x
      ensures multiset(Listeners(ownPorts, plan))[x] <= 1
    {
      ControlAndOwnOnce(x, ownPorts, control);
      ListenerOnce(x, multiset(control), multiset(SortedUnique(ownPorts)), multiset(Locals(s.peerRoutes)),
        Hidden(s.selfRoutes, s.peerRoutes), s, base, Elements(ownPorts));
    }
    SingleMultiplicityIsDistinct(Listeners(ownPorts, plan));
  }

  lemma SharedIsRepeated(x: Port, a: seq<Port>, b: seq<Port>, rest: seq<Port>)
    requires x in a && x in b
    ensures !Distinct(a + b + rest)
  {
    var i :| 0 <= i < |a| && a[i] == x;
    var j :| 0 <= j < |b| && b[j] == x;
    assert (a + b + rest)[i] == (a + b + rest)[|a| + j];
  }

  lemma ControlOverlapRepeats(x: Port, ownPorts: seq<Port>, plan: RoutePlan)
    requires x in ownPorts && x in ControlPorts()
    ensures !Distinct(Listeners(ownPorts, plan))
  {
    var control: seq<Port> := [TNG_CONTROL_PORT, DAEMON_STATUS_PORT, AGENT_CARD_PORT];
    var rest := Egress(plan.selfRoutes) + GatewayListeners(plan.selfRoutes)
                + Locals(plan.peerRoutes) + MeshIngress(plan.peerRoutes);
    SharedIsRepeated(x, control, SortedUnique(ownPorts), rest);
    assert Listeners(ownPorts, plan) == control + SortedUnique(ownPorts) + rest;
  }

  /**
   In every successful plan, from any registry, all listeners are pairwise distinct - control
   ports, own ports, egress, gateway, peer locals and mesh ingress - exactly when no own
   application port is a control port; the planner itself never checks that.
   */
  lemma ListenersDistinct(bundle: MeshBundle, selfId: string, registry: Registry)
    requires Plan(bundle, selfId, registry).Ok?
    ensures var ownPorts := Lookup(bundle.services, selfId).value.ports;
      Distinct(Listeners(ownPorts, Plan(bundle, selfId, registry).value.0)) <==> (Elements(ownPorts) !! ControlPorts())
  {
    var service, s := PlanFinal(bundle, selfId, registry);
    var plan := RoutePlan(s.selfRoutes, s.peerRoutes);
    if Elements(service.ports) !! ControlPorts() {
      ListenersSingle(service.ports, s, Base(bundle));
    } else {
      var x :| x in Elements(service.ports) && x in ControlPorts();
      ControlOverlapRepeats(x, service.ports, plan);
    }
  }

  /**
   Whatever the own ports are, a plan never gives a hidden listener or a new endpoint the port of
   an existing reservation, even one held for an absent or inactive peer; and peer locals avoid
   the control ports, the own ports and each other.
   */
  lemma NewPortsAvoidReservations(bundle: MeshBundle, selfId: string, registry: Registry)
    requires Plan(bundle, selfId, registry).Ok?
    ensures var (plan, after) := Plan(bundle, selfId, registry).value;
      && Extends(registry, after) && Injective(after)
      && (forall x :: x in Hidden(plan.selfRoutes, plan.peerRoutes) ==> x !in after.Values)
      && (forall e :: e in after && e !in registry ==> after[e] !in registry.Values)
      && Distinct(Locals(plan.peerRoutes))
      && (forall r :: r in plan.peerRoutes ==> RouteReserved(r, after) && r.local !in ControlPorts())
  {
    var service, s := PlanFinal(bundle, selfId, registry);
    LocalsAvoidControl(s, Base(bundle), Elements(service.ports));
  }

  lemma LocalsAvoidControl(s: Alloc, base: set<Port>, own: set<Port>)
    requires Inv(s, base, own)
    ensures Distinct(Locals(s.peerRoutes))
    ensures forall r :: r in s.peerRoutes ==> RouteReserved(r, s.registry) && r.local !in ControlPorts()
  {
    SingleMultiplicityIsDistinct(Locals(s.peerRoutes));
    forall r | r in s.peerRoutes
      ensures r.local !in ControlPorts()
    {
      var i :| 0 <= i < |s.peerRoutes| && s.peerRoutes[i] == r;
      assert Locals(s.peerRoutes)[i] == r.local;
      assert r.local in multiset(Locals(s.peerRoutes));
    }
  }

  // ---------------------------------------------------------------- planning is a fixed point

  /** First fit is unaffected by ports taken in advance, as long as the chosen one is not among them. */
  lemma FirstFreeStable(base: Port, used: set<Port>, taken: set<Port>)
    requires FirstFree(base, used).Some? && FirstFree(base, used).value !in taken
    ensures FirstFree(base, used + taken) == FirstFree(base, used)
  {
    var p, q := FirstFree(base, used).value, FirstFree(base, used + taken);
    assert p !in used + taken;
    assert q.Some? && q.value !in used;
    assert !(p < q.value) && !(q.value < p);
  }

  /** The state in which the reservations of `final`, on the ports `taken`, are already present. */
  ghost function Lift(s: Alloc, final: Registry, taken: set<Port>): Alloc {
    s.(used := s.used + taken, reserved := taken, registry := final)
  }

  ghost predicate HiddenFree(s: Alloc, taken: set<Port>) {
    forall x :: x in Hidden(s.selfRoutes, s.peerRoutes) ==> x !in taken
  }

  lemma OwnPortLifts(port: Port, protocol: Protocol, s: Alloc, final: Registry, taken: set<Port>)
    requires OwnPortStep(port, protocol, s).Ok? && HiddenFree(OwnPortStep(port, protocol, s).value, taken)
    ensures OwnPortStep(port, protocol, Lift(s, final, taken))
         == Ok(Lift(OwnPortStep(port, protocol, s).value, final, taken))
  {
    var t := OwnPortStep(port, protocol, s).value;
    var r := t.selfRoutes[|s.selfRoutes|];
    AddSelfRoute(s.selfRoutes, r);
    assert r.egress in Hidden(t.selfRoutes, t.peerRoutes) && r.gateway in Hidden(t.selfRoutes, t.peerRoutes);
    FirstFreeStable(TNG_EGRESS_PORT_BASE, s.used, taken);
    FirstFreeStable(GATEWAY_SERVER_PORT_BASE, s.used + {r.egress}, taken);
    assert s.used + taken + {r.egress} == s.used + {r.egress} + taken;
    assert s.used + taken + {r.egress} + {r.gateway} == s.used + {r.egress} + {r.gateway} + taken;
  }

  lemma LocalLifts(e: Endpoint, s: Alloc, final: Registry, taken: set<Port>)
    requires LocalStep(e, s).Ok? && s.client <= s.used
    requires Extends(LocalStep(e, s).value.0.registry, final) && Covers(final, taken)
    ensures LocalStep(e, Lift(s, final, taken))
         == Ok((Lift(LocalStep(e, s).value.0, final, taken), LocalStep(e, s).value.1))
  {
    var (t, local) := LocalStep(e, s).value;
    assert e in t.registry && t.registry[e] == local;
    assert final[e] == local && local in taken;
    assert t.used + taken == s.used + taken;
  }

  lemma PeerPortLifts(peer: Peer, port: Port, s: Alloc, final: Registry, taken: set<Port>)
    requires PeerPortStep(peer, port, s).Ok? && s.client <= s.used
    requires Extends(PeerPortStep(peer, port, s).value.registry, final) && Covers(final, taken)
    requires HiddenFree(PeerPortStep(peer, port, s).value, taken)
    ensures PeerPortStep(peer, port, Lift(s, final, taken))
         == Ok(Lift(PeerPortStep(peer, port, s).value, final, taken))
  {
    var e := Endpoint(peer.id, port);
    var (t, local) := LocalStep(e, s).value;
    LocalLifts(e, s, final, taken);
    if port !in peer.connect {
      var ingress := FirstFree(TNG_INGRESS_PORT_BASE, t.used).value;
      IngressStaysFree(t, peer, port, local, ingress, taken);
      FirstFreeStable(TNG_INGRESS_PORT_BASE, t.used, taken);
      assert t.used + taken + {ingress} == t.used + {ingress} + taken;
    }
  }

  lemma IngressStaysFree(t: Alloc, peer: Peer, port: Port, local: Port, ingress: Port, taken: set<Port>)
    requires FirstFree(TNG_INGRESS_PORT_BASE, t.used) == Some(ingress) && port !in peer.connect
    requires var protocol := if port in peer.mcp then Mcp else Raw;
      HiddenFree(t.(used := t.used + {ingress},
                    peerRoutes := t.peerRoutes
                                  + [PeerRoute(peer.id, peer.host, port, local, ingress, protocol, false)]),
                 taken)
    ensures ingress !in taken
  {
    var protocol := if port in peer.mcp then Mcp else Raw;
    var r := PeerRoute(peer.id, peer.host, port, local, ingress, protocol, false);
    AddPeerRoute(t.peerRoutes, r);
    assert ingress in Hidden(t.selfRoutes, t.peerRoutes + [r]);
  }

  lemma StepLifts(job: Job, s: Alloc, final: Registry, taken: set<Port>)
    requires Step(job, s).Ok? && s.client <= s.used
    requires Extends(Step(job, s).value.registry, final) && Covers(final, taken)
    requires HiddenFree(Step(job, s).value, taken)
    ensures Step(job, Lift(s, final, taken)) == Ok(Lift(Step(job, s).value, final, taken))
  {
    match job
    case OwnPort(port, protocol) => OwnPortLifts(port, protocol, s, final, taken);
    case Reach(_, _) =>
    case PeerPort(peer, port) => PeerPortLifts(peer, port, s, final, taken);
  }

  lemma GrowsKeepsBounds(s: Alloc, t: Alloc, final: Registry, taken: set<Port>)
    requires Grows(s, t) && Extends(t.registry, final) && HiddenFree(t, taken)
    ensures Extends(s.registry, final) && HiddenFree(s, taken)
  {
  }

  /** A run replayed with all its future reservations already present takes the same decisions. */
  lemma {:induction false} RunLifts(
    jobs: seq<Job>, s: Alloc, base: set<Port>, own: set<Port>, final: Registry, taken: set<Port>)
    requires Inv(s, base, own) && JobsAllWithin(jobs, base)
    requires Run(jobs, s).Ok?
    requires Extends(Run(jobs, s).value.registry, final) && Covers(final, taken)
    requires HiddenFree(Run(jobs, s).value, taken)
    ensures Run(jobs, Lift(s, final, taken)) == Ok(Lift(Run(jobs, s).value, final, taken))
  {
    if jobs != [] {
      var n := |jobs| - 1;
      var t := Run(jobs[..n], s).value;
      RunKeepsInv(jobs[..n], s, base, own);
      StepKeepsInv(jobs[n], t, base, own);
      GrowsKeepsBounds(t, Step(jobs[n], t).value, final, taken);
      RunLifts(jobs[..n], s, base, own, final, taken);
      StepLifts(jobs[n], t, final, taken);
    }
  }

  lemma InitialLifts(bundle: MeshBundle, service: MeshService, registry: Registry, final: Registry)
    requires Extends(registry, final)
    ensures Lift(Initial(bundle, service, registry), final, final.Values) == Initial(bundle, service, final)
  {
    assert forall e :: e in registry ==> final[e] in final.Values;
  }

  /** A plan is what its run makes of the initial state. */
  lemma PlanOfRun(bundle: MeshBundle, selfId: string, registry: Registry, service: MeshService, s: Alloc)
    requires Lookup(bundle.services, selfId) == Some(service) && service.Active()
    requires ReservationsSound(registry, service.ports)
    requires Run(Jobs(bundle, selfId, service), Initial(bundle, service, registry)) == Ok(s)
    ensures Plan(bundle, selfId, registry) == Ok((RoutePlan(s.selfRoutes, s.peerRoutes), s.registry))
  {
  }

  /** The run of the second plan. */
  lemma RunAgain(bundle: MeshBundle, selfId: string, registry: Registry, service: MeshService, s: Alloc)
    requires Inv(Initial(bundle, service, registry), Base(bundle), Elements(service.ports))
    requires Run(Jobs(bundle, selfId, service), Initial(bundle, service, registry)) == Ok(s)
    requires Extends(registry, s.registry) && Inv(s, Base(bundle), Elements(service.ports))
    requires registry.Values <= s.registry.Values
    ensures Run(Jobs(bundle, selfId, service), Initial(bundle, service, s.registry))
         == Ok(Lift(s, s.registry, s.registry.Values))
  {
    JobsWithin(bundle, selfId, service);
    RunLifts(Jobs(bundle, selfId, service), Initial(bundle, service, registry), Base(bundle),
             Elements(service.ports), s.registry, s.registry.Values);
    InitialLifts(bundle, service, registry, s.registry);
  }

  lemma FinalReservationsSound(s: Alloc, base: set<Port>, ownPorts: seq<Port>)
    requires Inv(s, base, Elements(ownPorts))
    ensures ReservationsSound(s.registry, ownPorts)
  {
  }

  /** Planning again on the same bundle, with the registry the first plan produced, succeeds with
      the identical routes and registry. */
  lemma ReplanIsFixedPoint(bundle: MeshBundle, selfId: string, registry: Registry)
    requires Plan(bundle, selfId, registry).Ok?
    ensures Plan(bundle, selfId, Plan(bundle, selfId, registry).value.1) == Plan(bundle, selfId, registry)
  {
    var service, s := PlanFinal(bundle, selfId, registry);
    assert MeshEntry(selfId, service) in bundle.services;
    InitialInv(bundle, service, registry);
    RunAgain(bundle, selfId, registry, service, s);
    FinalReservationsSound(s, Base(bundle), service.ports);
    PlanOfRun(bundle, selfId, s.registry, service, Lift(s, s.registry, s.registry.Values));
  }
}
