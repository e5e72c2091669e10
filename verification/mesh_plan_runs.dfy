/**
 Planning over whole histories of bundles: which errors can occur at all, and how many ports may
 be in use before allocation can fail.
 */
module MeshPlanRuns {
  import opened Results
  import opened Ports
  import opened MeshSchema
  import opened MeshPlanner
  import opened MeshPlanSafety

  /** Slots every allocation can fall back on: 39600 to 60999. */
  const SLOTS := 21400

  // ---------------------------------------------------------------- capacity

  lemma {:induction false} RangeFills(lo: nat, hi: nat, used: set<Port>)
    requires lo <= hi <= 0x1_0000 && forall q: Port :: lo <= q < hi ==> q in used
    ensures |used| >= hi - lo
  {
    if lo < hi {
      var top: Port := hi - 1;
      assert top in used;
      RangeFills(lo, hi - 1, used - {top});
    }
  }

  lemma FreeSlotExists(base: Port, used: set<Port>)
    requires base <= GATEWAY_CLIENT_PORT_BASE && |used| < SLOTS
    ensures FirstFree(base, used).Some?
  {
    if FirstFree(base, used).None? {
      RangeFills(GATEWAY_CLIENT_PORT_BASE, LAST_INTERNAL_PORT + 1, used);
    }
  }

  /** How many allocations a job may ask for. */
  function Weight(job: Job): nat {
    match job
    case OwnPort(_, _) => 2
    case Reach(_, _) => 0
    case PeerPort(peer, port) => if port in peer.connect then 1 else 2
  }

  /** No job asks for more than two ports. */
  function Requested(jobs: seq<Job>): (n: nat)
    ensures n <= 2 * |jobs|
  {
    if jobs == [] then 0 else Requested(jobs[..|jobs| - 1]) + Weight(jobs[|jobs| - 1])
  }

  lemma LocalHasRoom(e: Endpoint, s: Alloc)
    requires e.port in s.used && |s.used| < SLOTS
    ensures match LocalStep(e, s)
      case Ok((t, _)) => |t.used| <= |s.used| + 1
      case Err(err) => !err.Exhausted?
  {
    FreeSlotExists(GATEWAY_CLIENT_PORT_BASE, s.used);
    assert s.used + {e.port} == s.used;
  }

  lemma StepHasRoom(job: Job, s: Alloc)
    requires job.PeerPort? ==> job.port in s.used
    requires |s.used| + Weight(job) <= SLOTS
    ensures match Step(job, s)
      case Ok(t) => |t.used| <= |s.used| + Weight(job)
      case Err(e) => !e.Exhausted?
  {
    match job
    case OwnPort(port, protocol) =>
      FreeSlotExists(TNG_EGRESS_PORT_BASE, s.used);
      var egress := FirstFree(TNG_EGRESS_PORT_BASE, s.used).value;
      FreeSlotExists(GATEWAY_SERVER_PORT_BASE, s.used + {egress});
    case Reach(_, _) =>
    case PeerPort(peer, port) =>
      var local := LocalStep(Endpoint(peer.id, port), s);
      LocalHasRoom(Endpoint(peer.id, port), s);
      if local.Ok? && port !in peer.connect {
        FreeSlotExists(TNG_INGRESS_PORT_BASE, local.value.0.used);
      }
  }

  lemma {:induction false} RunHasRoom(jobs: seq<Job>, s: Alloc, base: set<Port>, own: set<Port>)
    requires Inv(s, base, own) && JobsAllWithin(jobs, base)
    requires |s.used| + Requested(jobs) <= SLOTS
    ensures match Run(jobs, s)
      case Ok(t) => |t.used| <= |s.used| + Requested(jobs)
      case Err(e) => !e.Exhausted?
  {
    if jobs != [] {
      var n := |jobs| - 1;
      RunHasRoom(jobs[..n], s, base, own);
      if Run(jobs[..n], s).Ok? {
        RunKeepsInv(jobs[..n], s, base, own);
        assert JobWithin(jobs[n], base);
        StepHasRoom(jobs[n], Run(jobs[..n], s).value);
      }
    }
  }

  /** A plan cannot fail by exhaustion while used and requested ports together fit in the slots. */
  lemma PlanHasRoom(bundle: MeshBundle, selfId: string, registry: Registry)
    requires Lookup(bundle.services, selfId).Some?
    requires var service := Lookup(bundle.services, selfId).value;
      |Initial(bundle, service, registry).used| + Requested(Jobs(bundle, selfId, service)) <= SLOTS
    ensures Plan(bundle, selfId, registry).Err? ==> !Plan(bundle, selfId, registry).error.Exhausted?
  {
    var service := Lookup(bundle.services, selfId).value;
    if service.Active() && ReservationsSound(registry, service.ports) {
      assert MeshEntry(selfId, service) in bundle.services;
      InitialInv(bundle, service, registry);
      JobsWithin(bundle, selfId, service);
      RunHasRoom(Jobs(bundle, selfId, service), Initial(bundle, service, registry), Base(bundle),
                 Elements(service.ports));
    }
  }

  // ---------------------------------------------------------------- the listener guard

  ghost predicate ControlFree(registry: Registry) {
    forall e :: e in registry ==> registry[e] !in ControlPorts()
  }

  /** Endpoints a list of jobs plans. */
  ghost function Planned(jobs: seq<Job>): set<Endpoint> {
    set j | j in jobs && j.PeerPort? :: Endpoint(j.peer.id, j.port)
  }

  /** No endpoint is planned twice. */
  ghost predicate FreshJobs(jobs: seq<Job>) {
    jobs != [] ==>
      var n := |jobs| - 1;
      && FreshJobs(jobs[..n])
      && (jobs[n].PeerPort? ==> Endpoint(jobs[n].peer.id, jobs[n].port) !in Planned(jobs[..n]))
  }

  /** Client listeners come from the control ports, the own ports, or an endpoint planned already. */
  ghost predicate ClientFrom(s: Alloc, own: set<Port>, planned: set<Endpoint>) {
    forall x :: x in s.client ==>
      x in ControlPorts() + own || exists e :: e in planned && e in s.registry && s.registry[e] == x
  }

  ghost predicate OnlyHostError(r: Result<Alloc, PlanError>) {
    r.Err? ==> r.error.NoReachableHost? || r.error.Exhausted?
  }

  lemma LocalUnguarded(e: Endpoint, s: Alloc, base: set<Port>, own: set<Port>, planned: set<Endpoint>)
    requires Sets(s, base, own) && e.port in base && ControlFree(s.registry)
    requires ClientFrom(s, own, planned) && e !in planned
    ensures LocalStep(e, s).Err? ==> LocalStep(e, s).error.Exhausted?
    ensures LocalStep(e, s).Ok? ==>
      var t := LocalStep(e, s).value.0;
      ControlFree(t.registry) && ClientFrom(t, own, planned + {e})
  {
    if e in s.registry {
      assert s.registry[e] in s.reserved;
      assert s.registry[e] !in s.client;
    }
    if LocalStep(e, s).Ok? {
      LocalKeepsInv(e, s, base, own, multiset{});
      var (t, local) := LocalStep(e, s).value;
      forall x | x in t.client
        ensures x in ControlPorts() + own
             || exists d :: d in planned + {e} && d in t.registry && t.registry[d] == x
      {
        if x == local {
          assert e in planned + {e} && t.registry[e] == x;
        } else if x !in ControlPorts() + own {
          var d :| d in planned && d in s.registry && s.registry[d] == x;
          assert d in planned + {e} && t.registry[d] == x;
        }
      }
    }
  }

  lemma PeerPortUnguarded(peer: Peer, port: Port, s: Alloc, base: set<Port>, own: set<Port>, planned: set<Endpoint>)
    requires Sets(s, base, own) && port in base && ControlFree(s.registry)
    requires ClientFrom(s, own, planned) && Endpoint(peer.id, port) !in planned
    ensures OnlyHostError(PeerPortStep(peer, port, s))
    ensures PeerPortStep(peer, port, s).Ok? ==>
      var t := PeerPortStep(peer, port, s).value;
      ControlFree(t.registry) && ClientFrom(t, own, planned + {Endpoint(peer.id, port)})
  {
    LocalUnguarded(Endpoint(peer.id, port), s, base, own, planned);
  }

  lemma PlannedSnoc(jobs: seq<Job>)
    requires jobs != []
    ensures var n := |jobs| - 1;
      Planned(jobs) == Planned(jobs[..n]) + PlannedBy(jobs[n])
  {
    var n := |jobs| - 1;
    assert jobs == jobs[..n] + [jobs[n]];
  }

  ghost function PlannedBy(j: Job): set<Endpoint> {
    if j.PeerPort? then {Endpoint(j.peer.id, j.port)} else {}
  }

  lemma OwnPortUnguarded(port: Port, protocol: Protocol, t: Alloc, own: set<Port>, planned: set<Endpoint>)
    requires ControlFree(t.registry) && ClientFrom(t, own, planned)
    ensures OnlyHostError(OwnPortStep(port, protocol, t))
    ensures OwnPortStep(port, protocol, t).Ok? ==>
      var u := OwnPortStep(port, protocol, t).value; u.registry == t.registry && u.client == t.client
  {
  }

  lemma StepUnguarded(j: Job, t: Alloc, base: set<Port>, own: set<Port>, planned: set<Endpoint>)
    requires Sets(t, base, own) && JobWithin(j, base)
    requires ControlFree(t.registry) && ClientFrom(t, own, planned) && PlannedBy(j) !! planned
    ensures OnlyHostError(Step(j, t))
    ensures Step(j, t).Ok? ==>
      ControlFree(Step(j, t).value.registry) && ClientFrom(Step(j, t).value, own, planned + PlannedBy(j))
  {
    match j
    case OwnPort(port, protocol) =>
      OwnPortUnguarded(port, protocol, t, own, planned);
      assert planned + {} == planned;
    case Reach(_, _) =>
      assert planned + {} == planned;
    case PeerPort(peer, port) => PeerPortUnguarded(peer, port, t, base, own, planned);
  }

  lemma {:induction false} RunUnguarded(jobs: seq<Job>, s: Alloc, base: set<Port>, own: set<Port>)
    requires Inv(s, base, own) && JobsAllWithin(jobs, base) && FreshJobs(jobs)
    requires ControlFree(s.registry) && s.client == ControlPorts() + own
    ensures OnlyHostError(Run(jobs, s))
    ensures Run(jobs, s).Ok? ==>
      ControlFree(Run(jobs, s).value.registry) && ClientFrom(Run(jobs, s).value, own, Planned(jobs))
  {
    if jobs != [] {
      var n := |jobs| - 1;
      RunUnguarded(jobs[..n], s, base, own);
      PlannedSnoc(jobs);
      if Run(jobs[..n], s).Ok? {
        var t := Run(jobs[..n], s).value;
        RunKeepsInv(jobs[..n], s, base, own);
        StepUnguarded(jobs[n], t, base, own, Planned(jobs[..n]));
      }
    }
  }

  lemma {:induction false} FreshAppend(a: seq<Job>, b: seq<Job>)
    requires FreshJobs(a) && FreshJobs(b) && Planned(a) !! Planned(b)
    ensures FreshJobs(a + b)
  {
    if b == [] {
      assert a + b == a;
    } else {
      var n := |b| - 1;
      PlannedSnoc(b);
      FreshAppend(a, b[..n]);
      assert (a + b)[..|a + b| - 1] == a + b[..n];
      assert Planned(a + b[..n]) == Planned(a) + Planned(b[..n]);
    }
  }

  lemma {:induction false} OwnJobsFresh(ports: seq<Port>, mcpPorts: seq<Port>)
    ensures FreshJobs(OwnJobs(ports, mcpPorts)) && Planned(OwnJobs(ports, mcpPorts)) == {}
  {
    if ports != [] {
      var n := |ports| - 1;
      OwnJobsFresh(ports[..n], mcpPorts);
      assert OwnJobs(ports, mcpPorts)[..n] == OwnJobs(ports[..n], mcpPorts);
    }
  }

  lemma {:induction false} PeerPortJobsFresh(peer: Peer, ports: seq<Port>)
    requires StrictlyIncreasing(ports)
    ensures FreshJobs(PeerPortJobs(peer, ports))
    ensures Planned(PeerPortJobs(peer, ports)) == set p | p in ports :: Endpoint(peer.id, p)
  {
    var jobs := PeerPortJobs(peer, ports);
    if ports != [] {
      var n := |ports| - 1;
      PeerPortJobsFresh(peer, ports[..n]);
      assert jobs[..n] == PeerPortJobs(peer, ports[..n]);
      PlannedSnoc(jobs);
      assert ports == ports[..n] + [ports[n]];
    }
  }

  lemma PeerJobsFresh(e: MeshEntry)
    ensures FreshJobs(PeerJobs(e))
    ensures forall x :: x in Planned(PeerJobs(e)) ==> x.service == e.id
  {
    var head: seq<Job> := [Reach(e.id, e.service.ReachableHost())];
    var ports := PeerPortJobs(AsPeer(e), SortedUnique(e.service.ports));
    PeerPortJobsFresh(AsPeer(e), SortedUnique(e.service.ports));
    assert head[..0] == [] && Planned(head) == {};
    FreshAppend(head, ports);
  }

  ghost predicate DistinctIds(entries: seq<MeshEntry>) {
    forall i, j :: 0 <= i < j < |entries| ==> entries[i].id != entries[j].id
  }

  lemma {:induction false} PeersDistinct(services: seq<MeshEntry>, selfId: string)
    requires DistinctIds(services)
    ensures DistinctIds(Peers(services, selfId))
  {
    if services != [] {
      PeersDistinct(services[1..], selfId);
      var rest := Peers(services[1..], selfId);
      forall j | 0 <= j < |rest|
        ensures rest[j].id != services[0].id
      {
        assert rest[j] in services[1..];
      }
    }
  }

  lemma {:induction false} PeersJobsFresh(peers: seq<MeshEntry>)
    requires DistinctIds(peers)
    ensures FreshJobs(PeersJobs(peers))
    ensures forall x :: x in Planned(PeersJobs(peers)) ==> exists e :: e in peers && e.id == x.service
  {
    if peers != [] {
      var n := |peers| - 1;
      PeersJobsFresh(peers[..n]);
      PeerJobsFresh(peers[n]);
      var a, b := PeersJobs(peers[..n]), PeerJobs(peers[n]);
      assert Planned(a + b) == Planned(a) + Planned(b);
      FreshAppend(a, b);
    }
  }

  lemma JobsFresh(bundle: MeshBundle, selfId: string, service: MeshService)
    requires WellFormed(bundle)
    ensures FreshJobs(Jobs(bundle, selfId, service))
  {
    PeersDistinct(bundle.services, selfId);
    PeersJobsFresh(Peers(bundle.services, selfId));
    OwnJobsFresh(SortedUnique(service.ports), service.mcpPorts);
    FreshAppend(OwnJobs(SortedUnique(service.ports), service.mcpPorts), PeersJobs(Peers(bundle.services, selfId)));
  }

  // ---------------------------------------------------------------- exactly which plans succeed

  ghost predicate PeersReachable(bundle: MeshBundle, selfId: string) {
    forall e :: e in Peers(bundle.services, selfId) ==> e.service.ReachableHost().Some?
  }

  lemma {:induction false} RunNeedsHosts(jobs: seq<Job>, s: Alloc)
    ensures Run(jobs, s).Ok? ==> forall j :: j in jobs && j.Reach? ==> j.host.Some?
    ensures Run(jobs, s).Err? && Run(jobs, s).error.NoReachableHost? ==>
      exists j :: j in jobs && j.Reach? && j.host.None?
  {
    if jobs != [] {
      var n := |jobs| - 1;
      RunNeedsHosts(jobs[..n], s);
      assert jobs == jobs[..n] + [jobs[n]];
    }
  }

  lemma {:induction false} ReachJobs(peers: seq<MeshEntry>, e: MeshEntry)
    requires e in peers
    ensures Reach(e.id, e.service.ReachableHost()) in PeersJobs(peers)
  {
    var n := |peers| - 1;
    if peers[n] == e {
      assert PeerJobs(e)[0] in PeerJobs(e);
    } else {
      assert e in peers[..n];
      ReachJobs(peers[..n], e);
    }
  }

  lemma {:induction false} ReachFromPeer(peers: seq<MeshEntry>, j: Job)
    requires j in PeersJobs(peers) && j.Reach?
    ensures exists e :: e in peers && j.host == e.service.ReachableHost()
  {
    var n := |peers| - 1;
    if j in PeersJobs(peers[..n]) {
      ReachFromPeer(peers[..n], j);
    } else {
      assert j in PeerJobs(peers[n]);
      assert peers[n] in peers;
    }
  }

  /**
   With sound reservations that avoid the control ports, an active guest's plan fails only for lack
   of ports or of a peer address, and the registry it returns is again sound and control-free.
   */
  lemma PlanErrors(bundle: MeshBundle, selfId: string, registry: Registry)
    requires WellFormed(bundle)
    requires Lookup(bundle.services, selfId).Some? && Lookup(bundle.services, selfId).value.Active()
    requires ReservationsSound(registry, Lookup(bundle.services, selfId).value.ports) && ControlFree(registry)
    ensures Plan(bundle, selfId, registry).Ok? ==> PeersReachable(bundle, selfId)
    ensures Plan(bundle, selfId, registry).Err? ==>
      var e := Plan(bundle, selfId, registry).error;
      e.Exhausted? || (e.NoReachableHost? && !PeersReachable(bundle, selfId))
    ensures Plan(bundle, selfId, registry).Ok? ==>
      var after := Plan(bundle, selfId, registry).value.1;
      ReservationsSound(after, Lookup(bundle.services, selfId).value.ports) && ControlFree(after)
  {
    var service := Lookup(bundle.services, selfId).value;
    var peers, s0 := Peers(bundle.services, selfId), Initial(bundle, service, registry);
    var own, jobs := OwnJobs(SortedUnique(service.ports), service.mcpPorts), Jobs(bundle, selfId, service);
    assert MeshEntry(selfId, service) in bundle.services;
    InitialInv(bundle, service, registry);
    JobsWithin(bundle, selfId, service);
    JobsFresh(bundle, selfId, service);
    RunUnguarded(jobs, s0, Base(bundle), Elements(service.ports));
    RunNeedsHosts(jobs, s0);
    if Run(jobs, s0).Ok? {
      RunKeepsInv(jobs, s0, Base(bundle), Elements(service.ports));
      forall e | e in peers
        ensures e.service.ReachableHost().Some?
      {
        ReachJobs(peers, e);
        assert Reach(e.id, e.service.ReachableHost()) in jobs;
      }
    } else if Run(jobs, s0).error.NoReachableHost? {
      var j :| j in jobs && j.Reach? && j.host.None?;
      assert j in PeersJobs(peers);
      ReachFromPeer(peers, j);
    }
  }

  /** With room for the requested ports as well, it succeeds exactly when every active peer has an
      address. */
  lemma PlanSucceedsExactly(bundle: MeshBundle, selfId: string, registry: Registry, service: MeshService)
    requires WellFormed(bundle) && Lookup(bundle.services, selfId) == Some(service) && service.Active()
    requires ReservationsSound(registry, service.ports) && ControlFree(registry)
    requires |Initial(bundle, service, registry).used| + Requested(Jobs(bundle, selfId, service)) <= SLOTS
    ensures Plan(bundle, selfId, registry).Ok? <==> PeersReachable(bundle, selfId)
  {
    PlanErrors(bundle, selfId, registry);
    PlanHasRoom(bundle, selfId, registry);
  }

  // ---------------------------------------------------------------- histories of bundles

  /** The daemon's registry after a history of bundles: a failed plan edits only a clone. */
  ghost function AfterBundles(bundles: seq<MeshBundle>, selfId: string): Registry {
    if bundles == [] then map[]
    else
      var before := AfterBundles(bundles[..|bundles| - 1], selfId);
      match Plan(bundles[|bundles| - 1], selfId, before)
      case Ok((_, after)) => after
      case Err(_) => before
  }

  ghost predicate AllWellFormed(bundles: seq<MeshBundle>) {
    forall b :: b in bundles ==> WellFormed(b)
  }

  /** Reservations are pairwise distinct and clear of the control ports. */
  ghost predicate RegistrySound(registry: Registry) {
    Injective(registry) && ControlFree(registry)
  }

  /** Some reservation is one of the guest's own ports. */
  ghost predicate OverlapsOwn(registry: Registry, ownPorts: seq<Port>) {
    exists e :: e in registry && registry[e] in ownPorts
  }

  lemma PlanKeepsSound(bundle: MeshBundle, selfId: string, registry: Registry)
    requires WellFormed(bundle) && RegistrySound(registry)
    ensures match Plan(bundle, selfId, registry)
      case Ok((_, after)) => RegistrySound(after) && Extends(registry, after)
      case Err(e) => !e.ListenerGuard?
  {
    var found := Lookup(bundle.services, selfId);
    if found.Some? && found.value.Active() && ReservationsSound(registry, found.value.ports) {
      PlanErrors(bundle, selfId, registry);
      if Plan(bundle, selfId, registry).Ok? {
        NewPortsAvoidReservations(bundle, selfId, registry);
      }
    }
  }

  /** From an empty registry, over any history of bundles, own ports changing or not, the registry stays
      injective and clear of control ports. */
  lemma {:induction false} HistoryKeepsSound(bundles: seq<MeshBundle>, selfId: string)
    requires AllWellFormed(bundles)
    ensures RegistrySound(AfterBundles(bundles, selfId))
  {
    if bundles != [] {
      var n := |bundles| - 1;
      HistoryKeepsSound(bundles[..n], selfId);
      PlanKeepsSound(bundles[n], selfId, AfterBundles(bundles[..n], selfId));
    }
  }

  lemma HistoryStepGrows(bundles: seq<MeshBundle>, selfId: string)
    requires AllWellFormed(bundles) && bundles != []
    ensures Extends(AfterBundles(bundles[..|bundles| - 1], selfId), AfterBundles(bundles, selfId))
  {
    var n := |bundles| - 1;
    HistoryKeepsSound(bundles[..n], selfId);
    PlanKeepsSound(bundles[n], selfId, AfterBundles(bundles[..n], selfId));
  }

  /** The registry only grows: a reservation made at any point of a history is in force ever after. */
  lemma {:induction false} HistoryOnlyGrows(bundles: seq<MeshBundle>, selfId: string, k: nat)
    requires AllWellFormed(bundles) && k <= |bundles|
    ensures Extends(AfterBundles(bundles[..k], selfId), AfterBundles(bundles, selfId))
  {
    var n := |bundles| - 1;
    if k == |bundles| {
      assert bundles[..k] == bundles;
    } else {
      HistoryOnlyGrows(bundles[..n], selfId, k);
      assert bundles[..n][..k] == bundles[..k];
      HistoryStepGrows(bundles, selfId);
    }
  }

  /** After any history the guard over listeners never fires, and the guards over the reservations fire
      exactly when one of them is now an own port. */
  lemma GuardsFireExactly(bundles: seq<MeshBundle>, selfId: string, next: MeshBundle)
    requires AllWellFormed(bundles) && WellFormed(next)
    requires Lookup(next.services, selfId).Some? && Lookup(next.services, selfId).value.Active()
    ensures var r := Plan(next, selfId, AfterBundles(bundles, selfId));
      && (r.Err? ==> !r.error.ListenerGuard?)
      && (r == Err(ReservationGuard) <==>
            OverlapsOwn(AfterBundles(bundles, selfId), Lookup(next.services, selfId).value.ports))
  {
    HistoryKeepsSound(bundles, selfId);
    PlanKeepsSound(next, selfId, AfterBundles(bundles, selfId));
    var registry, ownPorts := AfterBundles(bundles, selfId), Lookup(next.services, selfId).value.ports;
    if ReservationsSound(registry, ownPorts) {
      PlanErrors(next, selfId, registry);
    }
  }

  /** Every bundle that knows the guest lists the same own ports. */
  ghost predicate SameOwnPorts(bundles: seq<MeshBundle>, selfId: string, own: set<Port>) {
    forall b :: b in bundles && Lookup(b.services, selfId).Some? ==>
      Elements(Lookup(b.services, selfId).value.ports) == own
  }

  ghost predicate ClearOf(registry: Registry, own: set<Port>) {
    forall e :: e in registry ==> registry[e] !in own
  }

  lemma PlanKeepsClear(bundle: MeshBundle, selfId: string, registry: Registry, own: set<Port>)
    requires WellFormed(bundle) && RegistrySound(registry) && ClearOf(registry, own)
    requires Lookup(bundle.services, selfId).Some? ==> Elements(Lookup(bundle.services, selfId).value.ports) == own
    ensures Plan(bundle, selfId, registry).Ok? ==> ClearOf(Plan(bundle, selfId, registry).value.1, own)
  {
    if Plan(bundle, selfId, registry).Ok? {
      var ownPorts := Lookup(bundle.services, selfId).value.ports;
      PlanErrors(bundle, selfId, registry);
      assert forall p :: p in own ==> p in ownPorts;
    }
  }

  /** So while the own ports stay the same no guard ever fires. */
  lemma {:induction false} SamePortsNeverGuarded(bundles: seq<MeshBundle>, selfId: string, own: set<Port>)
    requires AllWellFormed(bundles) && SameOwnPorts(bundles, selfId, own)
    ensures ClearOf(AfterBundles(bundles, selfId), own)
    ensures bundles != [] ==>
      Plan(bundles[|bundles| - 1], selfId, AfterBundles(bundles[..|bundles| - 1], selfId)) != Err(ReservationGuard)
  {
    if bundles != [] {
      var n := |bundles| - 1;
      SamePortsNeverGuarded(bundles[..n], selfId, own);
      HistoryKeepsSound(bundles[..n], selfId);
      PlanKeepsClear(bundles[n], selfId, AfterBundles(bundles[..n], selfId), own);
      NotGuarded(bundles[n], selfId, AfterBundles(bundles[..n], selfId), own);
    }
  }

  lemma NotGuarded(bundle: MeshBundle, selfId: string, registry: Registry, own: set<Port>)
    requires WellFormed(bundle) && RegistrySound(registry) && ClearOf(registry, own)
    requires Lookup(bundle.services, selfId).Some? ==> Elements(Lookup(bundle.services, selfId).value.ports) == own
    ensures Plan(bundle, selfId, registry) != Err(ReservationGuard)
  {
    var found := Lookup(bundle.services, selfId);
    if found.Some? && found.value.Active() {
      assert forall p :: p in found.value.ports ==> p in own;
      PlanErrors(bundle, selfId, registry);
    }
  }
}
