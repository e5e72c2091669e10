/**
 Which ports a plan chooses: a new endpoint keeps its own number whenever nothing stands in the way, and
 every other chosen port is the first one of its range that was free.
 */
module MeshPlanChoice {
  import opened Results
  import opened Ports
  import opened MeshSchema
  import opened MeshPlanner
  import opened MeshPlanSafety

  // ---------------------------------------------------------------- what a run keeps

  /** The first port from `from` on that is not among these, if all before it are. */
  ghost predicate FirstFrom(from: Port, p: Port, used: set<Port>) {
    from <= p <= 60999 && forall q: Port :: from <= q < p ==> q in used
  }

  /** Something stands in the way of the endpoint's own number: it is a control port, an own port, or the
      port of another endpoint. */
  ghost predicate Blocked(e: Endpoint, registry: Registry, own: set<Port>) {
    || e.port == 50000 || e.port == 8088 || e.port == 8089 || e.port in own
    || exists d :: d in registry && d != e && registry[d] == e.port
  }

  ghost predicate Chosen(e: Endpoint, registry: Registry, own: set<Port>, used: set<Port>)
    requires e in registry
  {
    registry[e] == e.port || (Blocked(e, registry, own) && FirstFrom(39600, registry[e], used))
  }

  ghost predicate NewChosen(s: Alloc, before: Registry, own: set<Port>) {
    forall e :: e in s.registry && e !in before ==> Chosen(e, s.registry, own, s.used)
  }

  /** Ports in use are application, control or reserved ports, or hidden listeners. */
  ghost predicate UsedExplained(s: Alloc, base: set<Port>) {
    forall q :: q in s.used ==>
      q in base || q in s.registry.Values || q in Hidden(s.selfRoutes, s.peerRoutes)
  }

  ghost predicate ListenersExplained(s: Alloc, own: set<Port>) {
    && (forall q :: q in s.reserved ==> q in s.registry.Values)
    && (forall q :: q in s.client ==> q in ControlPorts() + own || q in s.registry.Values)
  }

  ghost predicate SelfFits(routes: seq<SelfRoute>, used: set<Port>) {
    forall r :: r in routes ==> FirstFrom(39000, r.egress, used) && FirstFrom(39200, r.gateway, used)
  }

  ghost predicate PeersFit(routes: seq<PeerRoute>, used: set<Port>) {
    forall r :: r in routes && !r.connectMode ==> FirstFrom(39400, r.ingress, used)
  }

  ghost predicate Choices(s: Alloc, before: Registry, base: set<Port>, own: set<Port>) {
    && NewChosen(s, before, own) && UsedExplained(s, base) && ListenersExplained(s, own)
    && SelfFits(s.selfRoutes, s.used) && PeersFit(s.peerRoutes, s.used)
  }

  lemma BlockedStays(e: Endpoint, earlier: Registry, later: Registry, own: set<Port>)
    requires Extends(earlier, later) && Blocked(e, earlier, own)
    ensures Blocked(e, later, own)
  {
    if d :| d in earlier && d != e && earlier[d] == e.port {
      assert later[d] == e.port;
    }
  }

  lemma ChosenStays(s: Alloc, t: Alloc, before: Registry, own: set<Port>, e: Endpoint)
    requires NewChosen(s, before, own) && Extends(s.registry, t.registry) && s.used <= t.used
    requires e in s.registry && e !in before
    ensures e in t.registry && Chosen(e, t.registry, own, t.used)
  {
    if s.registry[e] != e.port {
      BlockedStays(e, s.registry, t.registry, own);
    }
  }

  lemma ValueOf(registry: Registry, e: Endpoint)
    requires e in registry
    ensures registry[e] in registry.Values
  {
  }

  lemma ValuesStay(earlier: Registry, later: Registry)
    requires Extends(earlier, later)
    ensures earlier.Values <= later.Values
  {
    forall q | q in earlier.Values ensures q in later.Values {
      var e :| e in earlier && earlier[e] == q;
      assert later[e] == q;
    }
  }

  // ---------------------------------------------------------------- one job

  /** A reserved number belongs to another endpoint. */
  lemma ReservedBlocks(s: Alloc, t: Alloc, e: Endpoint, own: set<Port>)
    requires ListenersExplained(s, own) && Extends(s.registry, t.registry) && e !in s.registry
    requires e.port in s.reserved || e.port in s.client
    ensures Blocked(e, t.registry, own)
  {
    if e.port in s.registry.Values {
      var d :| d in s.registry && s.registry[d] == e.port;
      assert d in t.registry && d != e && t.registry[d] == e.port;
    }
  }

  lemma LocalChoice(e: Endpoint, s: Alloc, before: Registry, base: set<Port>, own: set<Port>)
    requires Sets(s, base, own) && ListenersExplained(s, own) && LocalStep(e, s).Ok?
    ensures var (t, local) := LocalStep(e, s).value;
      && Extends(s.registry, t.registry) && s.used <= t.used <= s.used + {local}
      && e in t.registry && t.registry[e] == local
      && (forall d :: d in t.registry ==> d in s.registry || d == e)
      && (e !in s.registry ==> Chosen(e, t.registry, own, t.used))
      && t.selfRoutes == s.selfRoutes && t.peerRoutes == s.peerRoutes
      && t.client == s.client + {local} && (t.reserved <= s.reserved + {local})
  {
    var (t, local) := LocalStep(e, s).value;
    if e !in s.registry && local != e.port {
      ReservedBlocks(s, t, e, own);
    }
  }

  lemma LocalKeepsListeners(s: Alloc, t: Alloc, e: Endpoint, own: set<Port>)
    requires ListenersExplained(s, own) && Extends(s.registry, t.registry) && e in t.registry
    requires t.client == s.client + {t.registry[e]} && t.reserved <= s.reserved + {t.registry[e]}
    ensures ListenersExplained(t, own)
  {
    ValuesStay(s.registry, t.registry);
    ValueOf(t.registry, e);
  }

  lemma LocalKeepsChosen(s: Alloc, t: Alloc, e: Endpoint, before: Registry, own: set<Port>)
    requires NewChosen(s, before, own) && Extends(s.registry, t.registry) && s.used <= t.used
    requires e in t.registry && (forall d :: d in t.registry ==> d in s.registry || d == e)
    requires e !in s.registry ==> Chosen(e, t.registry, own, t.used)
    ensures NewChosen(t, before, own)
  {
    forall d | d in t.registry && d !in before ensures Chosen(d, t.registry, own, t.used) {
      if d in s.registry {
        ChosenStays(s, t, before, own, d);
      }
    }
  }

  lemma MoreUsed(from: Port, p: Port, used: set<Port>, more: set<Port>)
    requires FirstFrom(from, p, used) && used <= more
    ensures FirstFrom(from, p, more)
  {
  }

  lemma FitsStay(self: seq<SelfRoute>, peers: seq<PeerRoute>, used: set<Port>, more: set<Port>)
    requires SelfFits(self, used) && PeersFit(peers, used) && used <= more
    ensures SelfFits(self, more) && PeersFit(peers, more)
  {
  }

  /** What one turn of the own-port loop adds. */
  lemma OwnPortEffect(port: Port, protocol: Protocol, s: Alloc)
    requires OwnPortStep(port, protocol, s).Ok?
    ensures var t := OwnPortStep(port, protocol, s).value;
      && |t.selfRoutes| == |s.selfRoutes| + 1 && t.peerRoutes == s.peerRoutes
      && t.registry == s.registry && t.client == s.client && t.reserved == s.reserved
      && var r := t.selfRoutes[|s.selfRoutes|];
         && t.selfRoutes == s.selfRoutes + [r] && t.used == s.used + {r.egress} + {r.gateway}
         && FirstFrom(39000, r.egress, s.used) && FirstFrom(39200, r.gateway, s.used + {r.egress})
  {
  }

  lemma SelfFitsMore(routes: seq<SelfRoute>, r: SelfRoute, used: set<Port>)
    requires SelfFits(routes, used) && FirstFrom(39000, r.egress, used) && FirstFrom(39200, r.gateway, used)
    ensures SelfFits(routes + [r], used)
  {
  }

  lemma SelfKeepsUsed(s: Alloc, t: Alloc, r: SelfRoute, base: set<Port>)
    requires UsedExplained(s, base) && t.registry == s.registry && t.used == s.used + {r.egress} + {r.gateway}
    requires t.selfRoutes == s.selfRoutes + [r] && t.peerRoutes == s.peerRoutes
    ensures UsedExplained(t, base)
  {
    HiddenSelf(s, t, r);
  }

  lemma OwnPortChoice(port: Port, protocol: Protocol, s: Alloc, before: Registry, base: set<Port>, own: set<Port>)
    requires Choices(s, before, base, own) && OwnPortStep(port, protocol, s).Ok?
    ensures Choices(OwnPortStep(port, protocol, s).value, before, base, own)
  {
    var t := OwnPortStep(port, protocol, s).value;
    OwnPortEffect(port, protocol, s);
    var r := t.selfRoutes[|s.selfRoutes|];
    LocalKeepsChosenAlone(s, t, before, own);
    FitsStay(s.selfRoutes, s.peerRoutes, s.used, t.used);
    MoreUsed(39000, r.egress, s.used, t.used);
    MoreUsed(39200, r.gateway, s.used + {r.egress}, t.used);
    SelfFitsMore(s.selfRoutes, r, t.used);
    SelfKeepsUsed(s, t, r, base);
  }

  lemma HiddenSelf(s: Alloc, t: Alloc, r: SelfRoute)
    requires t.selfRoutes == s.selfRoutes + [r] && t.peerRoutes == s.peerRoutes
    ensures Hidden(t.selfRoutes, t.peerRoutes)
         == Hidden(s.selfRoutes, s.peerRoutes) + multiset{r.egress} + multiset{r.gateway}
  {
    AddSelfRoute(s.selfRoutes, r);
  }

  lemma LocalKeepsChosenAlone(s: Alloc, t: Alloc, before: Registry, own: set<Port>)
    requires NewChosen(s, before, own) && t.registry == s.registry && s.used <= t.used
    ensures NewChosen(t, before, own)
  {
    forall e | e in t.registry && e !in before ensures Chosen(e, t.registry, own, t.used) {
      ChosenStays(s, t, before, own, e);
    }
  }

  /** What one turn of the peer-port loop adds. */
  lemma PeerPortEffect(peer: Peer, port: Port, s: Alloc)
    requires PeerPortStep(peer, port, s).Ok?
    ensures var (t, local) := LocalStep(Endpoint(peer.id, port), s).value;
      var u := PeerPortStep(peer, port, s).value;
      && |u.peerRoutes| == |t.peerRoutes| + 1 && u.selfRoutes == t.selfRoutes
      && u.registry == t.registry && u.client == t.client && u.reserved == t.reserved
      && var r := u.peerRoutes[|t.peerRoutes|];
         && u.peerRoutes == t.peerRoutes + [r] && r.connectMode == (port in peer.connect)
         && u.used == t.used + (if r.connectMode then {} else {r.ingress})
         && (!r.connectMode ==> FirstFrom(39400, r.ingress, t.used))
  {
  }

  lemma PeerPortChoice(peer: Peer, port: Port, s: Alloc, before: Registry, base: set<Port>, own: set<Port>)
    requires Inv(s, base, own) && Choices(s, before, base, own) && PeerPortStep(peer, port, s).Ok?
    ensures Choices(PeerPortStep(peer, port, s).value, before, base, own)
  {
    var e := Endpoint(peer.id, port);
    var (t, local) := LocalStep(e, s).value;
    var u := PeerPortStep(peer, port, s).value;
    LocalChoice(e, s, before, base, own);
    PeerPortEffect(peer, port, s);
    LocalKeepsListeners(s, t, e, own);
    LocalKeepsChosen(s, t, e, before, own);
    LocalKeepsChosenAlone(t, u, before, own);
    var r := u.peerRoutes[|t.peerRoutes|];
    PeerKeepsUsed(s, t, u, r, e, base);
    FitsStay(s.selfRoutes, s.peerRoutes, s.used, u.used);
    PeersFitMore(s.peerRoutes, r, u.used);
  }

  lemma PeersFitMore(routes: seq<PeerRoute>, r: PeerRoute, used: set<Port>)
    requires PeersFit(routes, used) && (!r.connectMode ==> FirstFrom(39400, r.ingress, used))
    ensures PeersFit(routes + [r], used)
  {
  }

  lemma PeerKeepsUsed(s: Alloc, t: Alloc, u: Alloc, r: PeerRoute, e: Endpoint, base: set<Port>)
    requires UsedExplained(s, base) && Extends(s.registry, u.registry) && e in u.registry
    requires t.used <= s.used + {u.registry[e]} && u.used == t.used + (if r.connectMode then {} else {r.ingress})
    requires u.selfRoutes == s.selfRoutes && u.peerRoutes == s.peerRoutes + [r]
    ensures UsedExplained(u, base)
  {
    HiddenAfter(s, u, r);
    ValuesStay(s.registry, u.registry);
    ValueOf(u.registry, e);
  }

  lemma StepChoice(job: Job, s: Alloc, before: Registry, base: set<Port>, own: set<Port>)
    requires Inv(s, base, own) && Choices(s, before, base, own) && Step(job, s).Ok?
    ensures Choices(Step(job, s).value, before, base, own)
  {
    match job
    case OwnPort(port, protocol) => OwnPortChoice(port, protocol, s, before, base, own);
    case Reach(_, _) =>
    case PeerPort(peer, port) => PeerPortChoice(peer, port, s, before, base, own);
  }

  lemma {:induction false} RunChoice(jobs: seq<Job>, s: Alloc, before: Registry, base: set<Port>, own: set<Port>)
    requires Inv(s, base, own) && JobsAllWithin(jobs, base) && Choices(s, before, base, own) && Run(jobs, s).Ok?
    ensures Choices(Run(jobs, s).value, before, base, own)
    decreases |jobs|
  {
    if jobs != [] {
      var n := |jobs| - 1;
      WithinParts(jobs, base);
      RunChoice(jobs[..n], s, before, base, own);
      RunKeepsInv(jobs[..n], s, base, own);
      StepChoice(jobs[n], Run(jobs[..n], s).value, before, base, own);
    }
  }

  lemma WithinParts(jobs: seq<Job>, base: set<Port>)
    requires JobsAllWithin(jobs, base) && jobs != []
    ensures JobsAllWithin(jobs[..|jobs| - 1], base) && JobWithin(jobs[|jobs| - 1], base)
  {
    assert forall j :: j in jobs[..|jobs| - 1] ==> j in jobs;
  }

  // ---------------------------------------------------------------- a whole plan

  lemma InitialChoices(bundle: MeshBundle, service: MeshService, registry: Registry)
    ensures Choices(Initial(bundle, service, registry), registry, Base(bundle), Elements(service.ports))
  {
  }

  lemma PlanChoices(bundle: MeshBundle, selfId: string, registry: Registry) returns (service: MeshService, s: Alloc)
    requires Plan(bundle, selfId, registry).Ok?
    ensures Lookup(bundle.services, selfId) == Some(service)
    ensures Plan(bundle, selfId, registry) == Ok((RoutePlan(s.selfRoutes, s.peerRoutes), s.registry))
    ensures Inv(s, Base(bundle), Elements(service.ports))
    ensures Choices(s, registry, Base(bundle), Elements(service.ports)) && Extends(registry, s.registry)
  {
    service, s := PlanFinal(bundle, selfId, registry);
    var s0 := Initial(bundle, service, registry);
    assert MeshEntry(selfId, service) in bundle.services;
    InitialInv(bundle, service, registry);
    JobsWithin(bundle, selfId, service);
    InitialChoices(bundle, service, registry);
    RunChoice(Jobs(bundle, selfId, service), s0, registry, Base(bundle), Elements(service.ports));
  }

  /** Every port that stands in the way of a hidden or client port: control ports, the ports of active
      services, every reservation, and the hidden listeners of the plan. */
  ghost function Taken(bundle: MeshBundle, plan: RoutePlan, after: Registry): set<Port> {
    {50000, 8088, 8089} + ActivePorts(bundle.services) + after.Values
    + Elements(Egress(plan.selfRoutes)) + Elements(GatewayListeners(plan.selfRoutes))
    + Elements(MeshIngress(plan.peerRoutes))
  }

  lemma UsedIsTaken(bundle: MeshBundle, s: Alloc)
    requires UsedExplained(s, Base(bundle))
    ensures s.used <= Taken(bundle, RoutePlan(s.selfRoutes, s.peerRoutes), s.registry)
  {
    forall q | q in s.used ensures q in Taken(bundle, RoutePlan(s.selfRoutes, s.peerRoutes), s.registry) {
      if q in Hidden(s.selfRoutes, s.peerRoutes) {
        assert q in Egress(s.selfRoutes) || q in GatewayListeners(s.selfRoutes) || q in MeshIngress(s.peerRoutes);
      }
    }
  }

  lemma BlockedElsewhere(s: Alloc, base: set<Port>, own: set<Port>, registry: Registry, e: Endpoint)
    requires Inv(s, base, own) && e in s.registry && e !in registry
    requires Blocked(e, s.registry, own) && e.port in ControlPorts() ==> s.registry[e] != e.port
    ensures Blocked(e, s.registry, own) ==> s.registry[e] != e.port
  {
    if e.port in own {
      assert s.registry[e] in s.reserved;
    }
  }

  lemma {:induction false} NewAvoidControl(jobs: seq<Job>, s: Alloc, before: Registry, base: set<Port>, own: set<Port>)
    requires Inv(s, base, own) && JobsAllWithin(jobs, base) && Run(jobs, s).Ok?
    requires forall e :: e in s.registry && e !in before ==> s.registry[e] !in ControlPorts()
    ensures forall e :: e in Run(jobs, s).value.registry && e !in before ==>
      Run(jobs, s).value.registry[e] !in ControlPorts()
    decreases |jobs|
  {
    if jobs != [] {
      var n := |jobs| - 1;
      assert jobs == jobs[..n] + [jobs[n]];
      NewAvoidControl(jobs[..n], s, before, base, own);
      RunKeepsInv(jobs[..n], s, base, own);
      StepAvoidsControl(jobs[n], Run(jobs[..n], s).value, base, own);
    }
  }

  lemma StepAvoidsControl(job: Job, s: Alloc, base: set<Port>, own: set<Port>)
    requires Sets(s, base, own) && Step(job, s).Ok?
    ensures forall e :: e in Step(job, s).value.registry ==>
      (e in s.registry && s.registry[e] == Step(job, s).value.registry[e])
      || Step(job, s).value.registry[e] !in ControlPorts()
  {
  }

  /**
   A new endpoint keeps its own number exactly when that is no control port, no own port and not the port of
   another endpoint; otherwise it gets the first port from 39600 on that nothing else stands in the way of.
   */
  lemma OwnNumberExactly(bundle: MeshBundle, selfId: string, registry: Registry, service: MeshService, plan: RoutePlan,
                         after: Registry, e: Endpoint)
    requires Plan(bundle, selfId, registry) == Ok((plan, after)) && Lookup(bundle.services, selfId) == Some(service)
    requires e in after && e !in registry
    ensures after[e] == e.port <==> !Blocked(e, after, Elements(service.ports))
    ensures after[e] != e.port ==> FirstFrom(39600, after[e], Taken(bundle, plan, after))
  {
    var service', s := PlanChoices(bundle, selfId, registry);
    var s0, base, own := Initial(bundle, service, registry), Base(bundle), Elements(service.ports);
    assert Chosen(e, s.registry, own, s.used);
    UsedIsTaken(bundle, s);
    NewPortsAvoidReservations(bundle, selfId, registry);
    assert MeshEntry(selfId, service) in bundle.services;
    InitialInv(bundle, service, registry);
    JobsWithin(bundle, selfId, service);
    NewAvoidControl(Jobs(bundle, selfId, service), s0, registry, base, own);
    BlockedElsewhere(s, base, own, registry, e);
  }

  /** Every hidden listener has the first port of its range that nothing else stands in the way of. */
  lemma HiddenAreFirst(bundle: MeshBundle, selfId: string, registry: Registry, plan: RoutePlan, after: Registry)
    requires Plan(bundle, selfId, registry) == Ok((plan, after))
    ensures var taken := Taken(bundle, plan, after);
      && (forall r :: r in plan.selfRoutes ==> FirstFrom(39000, r.egress, taken) && FirstFrom(39200, r.gateway, taken))
      && (forall r :: r in plan.peerRoutes && !r.connectMode ==> FirstFrom(39400, r.ingress, taken))
  {
    var _, s := PlanChoices(bundle, selfId, registry);
    UsedIsTaken(bundle, s);
    FitsStay(s.selfRoutes, s.peerRoutes, s.used, Taken(bundle, plan, after));
  }

  // ---------------------------------------------------------------- which endpoints are added

  ghost predicate HasRoute(e: Endpoint, routes: seq<PeerRoute>) {
    exists r :: r in routes && r.service == e.service && r.remote == e.port
  }

  ghost predicate NewRouted(s: Alloc, before: Registry) {
    forall e :: e in s.registry && e !in before ==> HasRoute(e, s.peerRoutes)
  }

  lemma StepRoutesNew(job: Job, s: Alloc, before: Registry)
    requires NewRouted(s, before) && Step(job, s).Ok?
    ensures NewRouted(Step(job, s).value, before)
  {
    var u := Step(job, s).value;
    if job.PeerPort? {
      var r := u.peerRoutes[|s.peerRoutes|];
      assert u.peerRoutes == s.peerRoutes + [r] && r.service == job.peer.id && r.remote == job.port;
      forall e | e in u.registry && e !in before ensures HasRoute(e, u.peerRoutes) {
        if e in s.registry {
          var q :| q in s.peerRoutes && q.service == e.service && q.remote == e.port;
          assert q in u.peerRoutes;
        } else {
          assert r in u.peerRoutes;
        }
      }
    }
  }

  lemma {:induction false} RunRoutesNew(jobs: seq<Job>, s: Alloc, before: Registry)
    requires NewRouted(s, before) && Run(jobs, s).Ok?
    ensures NewRouted(Run(jobs, s).value, before)
    decreases |jobs|
  {
    if jobs != [] {
      var n := |jobs| - 1;
      RunRoutesNew(jobs[..n], s, before);
      StepRoutesNew(jobs[n], Run(jobs[..n], s).value, before);
    }
  }

  /** A plan adds a reservation for every endpoint it routes and for no other. */
  lemma ReservesExactlyRoutes(bundle: MeshBundle, selfId: string, registry: Registry, plan: RoutePlan, after: Registry,
                              e: Endpoint)
    requires Plan(bundle, selfId, registry) == Ok((plan, after))
    ensures e in after <==> e in registry || HasRoute(e, plan.peerRoutes)
  {
    var service, s := PlanFinal(bundle, selfId, registry);
    RunRoutesNew(Jobs(bundle, selfId, service), Initial(bundle, service, registry), registry);
    NewPortsAvoidReservations(bundle, selfId, registry);
    if r :| r in plan.peerRoutes && r.service == e.service && r.remote == e.port {
      assert RouteReserved(r, after);
    }
  }
}
