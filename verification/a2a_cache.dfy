/**
 The daemon's cache of A2A peers: per peer absent, fresh, stale or negative; and the local ports given to
 the peers that resolve. What a fetch returns is an oracle's answer. Sums of seconds are unbounded.
 */
module A2aCache {
  import opened Results
  import opened Ports
  import MeshPlanner

  const CACHE_TTL_MIN := 60
  const CACHE_TTL_MAX := 3600
  const FETCH_FAILURE_BACKOFF := 60
  const FIRST_LOCAL_PORT: Port := 18000

  type Key = string
  type References = string

  datatype BundlePeer = BundlePeer(alias: Option<string>, url: string, scoped: seq<string>, fingerprint: string)

  datatype AgentCard = AgentCard(id: string, publicIp: string, ports: seq<Port>, ttl: nat, references: References)

  /** What the daemon uses of a card that passed the fetch's validation. */
  type Card = c: AgentCard | c.ports != [] && 0 !in c.ports witness AgentCard("", "", [1], 0, "")

  datatype FetchError = Transport | HttpStatus(status: nat) | OtherFailure

  datatype CachedPort = CachedPort(remote: Port, local: Port)

  /** `failed` says that the last fetch failed. */
  datatype CachedPeer = CachedPeer(
    alias: Option<string>, id: Option<string>, ports: seq<CachedPort>, publicIp: Option<string>,
    references: Option<References>, fetchedAt: nat, nextRefresh: nat, fingerprint: string, failed: bool)

  type Cache = map<Key, CachedPeer>

  datatype Resolved = Resolved(id: string, publicIp: string, ports: seq<CachedPort>, references: References)

  datatype ResolveError = Backoff | NoLocalPort | FetchFailed

  datatype StateName = Fresh | Stale | Failing

  datatype Status = Status(name: StateName, id: Option<string>, lastSuccess: Option<nat>, ports: seq<Port>)

  /** A bundle peer, what fetching its card would return now, and the time. */
  datatype Visit = Visit(peer: BundlePeer, fetch: Result<Card, FetchError>, now: nat)

  function KeyOf(peer: BundlePeer): Key {
    if peer.alias.Some? then peer.alias.value else peer.url
  }

  predicate ScopedTo(peer: BundlePeer, service: string) {
    peer.scoped == [] || service in peer.scoped
  }

  predicate AllowsStale(error: FetchError) {
    match error
    case Transport => true
    case HttpStatus(status) => status >= 500
    case OtherFailure => false
  }

  function Ttl(declared: nat): (ttl: nat)
    ensures CACHE_TTL_MIN <= ttl <= CACHE_TTL_MAX
  {
    if declared < CACHE_TTL_MIN then CACHE_TTL_MIN else if declared > CACHE_TTL_MAX then CACHE_TTL_MAX else declared
  }

  predicate Resolvable(c: CachedPeer) {
    c.id.Some? && c.publicIp.Some? && c.ports != [] && c.references.Some?
  }

  function ResolvedFrom(c: CachedPeer): Resolved
    requires Resolvable(c)
  {
    Resolved(if c.alias.Some? then c.alias.value else c.id.value, c.publicIp.value, c.ports, c.references.value)
  }

  function Negative(peer: BundlePeer, now: nat): CachedPeer {
    CachedPeer(peer.alias, None, [], None, None, now, now + FETCH_FAILURE_BACKOFF, peer.fingerprint, true)
  }

  // ---------------------------------------------------------------- local ports

  /** The ports given out so far, whether all were found, and the ports in use afterwards. */
  datatype Assignment = Assignment(ok: bool, ports: seq<CachedPort>, used: set<Port>)

  function Remotes(ports: seq<CachedPort>): (r: seq<Port>)
    ensures |r| == |ports| && forall i :: 0 <= i < |r| ==> r[i] == ports[i].remote
  {
    if ports == [] then [] else Remotes(ports[..|ports| - 1]) + [ports[|ports| - 1].remote]
  }

  function Locals(ports: seq<CachedPort>): (r: seq<Port>)
    ensures |r| == |ports| && forall i :: 0 <= i < |r| ==> r[i] == ports[i].local
  {
    if ports == [] then [] else Locals(ports[..|ports| - 1]) + [ports[|ports| - 1].local]
  }

  /** The remote's own number if it is free, else the first free port from 18000 up. */
  function LocalFor(remote: Port, used: set<Port>): (r: Option<Port>)
    ensures r.Some? ==> r.value !in used
  {
    if remote != 0 && remote !in used then Some(remote) else MeshPlanner.FirstFree(FIRST_LOCAL_PORT, used)
  }

  function Assign(remotes: seq<Port>, used: set<Port>): (a: Assignment)
    ensures |a.ports| <= |remotes| && (a.ok ==> |a.ports| == |remotes|)
  {
    if remotes == [] then Assignment(true, [], used)
    else
      var n := |remotes| - 1;
      var a := Assign(remotes[..n], used);
      if !a.ok then a
      else
        match LocalFor(remotes[n], a.used)
        case None => a.(ok := false)
        case Some(local) => Assignment(true, a.ports + [CachedPort(remotes[n], local)], a.used + {local})
  }

  predicate AllFree(ports: seq<CachedPort>, used: set<Port>) {
    forall p :: p in ports ==> p.local !in used
  }

  /** Keeps cached ports if none of them is in use; otherwise gives each a new one in place, as far as
      free ports last. */
  function Available(ports: seq<CachedPort>, used: set<Port>): (a: Assignment)
    ensures |a.ports| == |ports|
  {
    if AllFree(ports, used) then Assignment(true, ports, used + Elements(Locals(ports)))
    else
      var a := Assign(Remotes(ports), used);
      Assignment(a.ok, a.ports + ports[|a.ports|..], a.used)
  }

  method AllocateLocalPort(preferred: Port, used: PortSet) returns (r: Option<Port>)
    modifies used
    ensures r == LocalFor(preferred, old(used.ports))
    ensures used.ports == old(used.ports) + (if r.Some? then {r.value} else {})
  {
    if preferred != 0 && preferred !in used.ports {
      var _ := used.Insert(preferred);
      return Some(preferred);
    }
    var port: int := FIRST_LOCAL_PORT;
    while port <= MeshPlanner.LAST_INTERNAL_PORT
      invariant FIRST_LOCAL_PORT <= port
      invariant forall q: Port ::
        FIRST_LOCAL_PORT <= q < port && q <= MeshPlanner.LAST_INTERNAL_PORT ==> q in used.ports
      invariant used.ports == old(used.ports)
    {
      if port !in used.ports {
        var _ := used.Insert(port);
        return Some(port);
      }
      port := port + 1;
    }
    return None;
  }

  lemma {:induction false} FailureSticks(remotes: seq<Port>, i: nat, used: set<Port>)
    requires i <= |remotes| && !Assign(remotes[..i], used).ok
    ensures Assign(remotes, used) == Assign(remotes[..i], used)
  {
    if i < |remotes| {
      var n := |remotes| - 1;
      assert remotes[..n][..i] == remotes[..i];
      FailureSticks(remotes[..n], i, used);
    } else {
      assert remotes[..i] == remotes;
    }
  }

  lemma AssignNext(remotes: seq<Port>, i: nat, before: set<Port>, given: seq<CachedPort>, used: set<Port>)
    requires i < |remotes| && Assign(remotes[..i], before) == Assignment(true, given, used)
    ensures match LocalFor(remotes[i], used)
      case None => Assign(remotes, before) == Assignment(false, given, used)
      case Some(local) =>
        Assign(remotes[..i + 1], before) == Assignment(true, given + [CachedPort(remotes[i], local)], used + {local})
  {
    assert remotes[..i + 1][..i] == remotes[..i];
    if LocalFor(remotes[i], used).None? {
      FailureSticks(remotes, i + 1, before);
    }
  }

  /** The allocation loop over a fetched card's ports. */
  method AssignPorts(remotes: seq<Port>, used: PortSet) returns (ok: bool, ports: seq<CachedPort>)
    modifies used
    ensures Assignment(ok, ports, used.ports) == Assign(remotes, old(used.ports))
  {
    ports := [];
    for i := 0 to |remotes|
      invariant Assign(remotes[..i], old(used.ports)) == Assignment(true, ports, used.ports)
    {
      AssignNext(remotes, i, old(used.ports), ports, used.ports);
      var local := AllocateLocalPort(remotes[i], used);
      if local.None? {
        return false, ports;
      }
      ports := ports + [CachedPort(remotes[i], local.value)];
    }
    assert remotes[..|remotes|] == remotes;
    ok := true;
  }

  /** The first `i` of the ports `was` have been given new local ports, the others not yet. */
  ghost predicate Reassigned(was: seq<CachedPort>, i: nat, before: set<Port>, now: seq<CachedPort>, used: set<Port>) {
    && i <= |was|
    && var a := Assign(Remotes(was)[..i], before);
       a.ok && a.used == used && now == a.ports + was[i..]
  }

  lemma ReassignNext(was: seq<CachedPort>, i: nat, before: set<Port>, now: seq<CachedPort>, used: set<Port>)
    requires Reassigned(was, i, before, now, used) && i < |was|
    ensures |now| == |was| && now[i] == was[i]
    ensures match LocalFor(was[i].remote, used)
      case None =>
        var a := Assign(Remotes(was), before); !a.ok && used == a.used && now == a.ports + was[|a.ports|..]
      case Some(local) =>
        Reassigned(was, i + 1, before, now[i := CachedPort(was[i].remote, local)], used + {local})
  {
    var given := Assign(Remotes(was)[..i], before).ports;
    AssignNext(Remotes(was), i, before, given, used);
    var local := LocalFor(was[i].remote, used);
    if local.Some? {
      assert now[i := CachedPort(was[i].remote, local.value)]
          == given + [CachedPort(was[i].remote, local.value)] + was[i + 1..];
    }
  }

  lemma ReassignedAll(was: seq<CachedPort>, before: set<Port>, now: seq<CachedPort>, used: set<Port>)
    requires Reassigned(was, |was|, before, now, used)
    ensures var a := Assign(Remotes(was), before); a.ok && used == a.used && now == a.ports + was[|a.ports|..]
  {
    assert Remotes(was)[..|was|] == Remotes(was);
  }

  /** The loop that gives every cached port a new local port in place. */
  method ReassignInPlace(was: seq<CachedPort>, used: PortSet) returns (ok: bool, now: seq<CachedPort>)
    modifies used
    ensures var a := Assign(Remotes(was), old(used.ports));
      ok == a.ok && used.ports == a.used && now == a.ports + was[|a.ports|..]
  {
    now := was;
    assert Assign(Remotes(was)[..0], used.ports) == Assignment(true, [], used.ports) && [] + was[0..] == was;
    for i := 0 to |was|
      invariant Reassigned(was, i, old(used.ports), now, used.ports)
    {
      ReassignNext(was, i, old(used.ports), now, used.ports);
      var local := AllocateLocalPort(now[i].remote, used);
      if local.None? {
        return false, now;
      }
      now := now[i := now[i].(local := local.value)];
    }
    ReassignedAll(was, old(used.ports), now, used.ports);
    ok := true;
  }

  method TakeAll(ports: seq<CachedPort>, used: PortSet)
    modifies used
    ensures used.ports == old(used.ports) + Elements(Locals(ports))
  {
    for i := 0 to |ports|
      invariant used.ports == old(used.ports) + Elements(Locals(ports)[..i])
    {
      var _ := used.Insert(ports[i].local);
      assert Elements(Locals(ports)[..i + 1]) == Elements(Locals(ports)[..i]) + {ports[i].local};
    }
    assert Locals(ports)[..|ports|] == Locals(ports);
  }

  /** `ensure_cached_ports_available`: the ports as they are afterwards. */
  method EnsurePortsAvailable(ports: seq<CachedPort>, used: PortSet) returns (ok: bool, now: seq<CachedPort>)
    modifies used
    ensures Assignment(ok, now, used.ports) == Available(ports, old(used.ports))
  {
    if AllFree(ports, used.ports) {
      TakeAll(ports, used);
      ok, now := true, ports;
    } else {
      ok, now := ReassignInPlace(ports, used);
    }
  }

  // ---------------------------------------------------------------- resolving one peer

  /** What resolving a peer gives: the answer, the cache and ports in use it leaves, the status it
      records, and whether it fetched. */
  datatype Step = Step(
    result: Result<Resolved, ResolveError>, cache: Cache, used: set<Port>, status: Option<Status>, fetched: bool)

  predicate UsesCache(cache: Cache, peer: BundlePeer, now: nat) {
    var key := KeyOf(peer);
    key in cache && cache[key].fingerprint == peer.fingerprint && now < cache[key].nextRefresh
  }

  /** Answers from a resolvable entry once its ports are available. */
  function Serve(cache: Cache, used: set<Port>, key: Key, entry: CachedPeer, fetched: bool): Step
    requires Resolvable(entry)
  {
    var a := Available(entry.ports, used);
    var kept := entry.(ports := a.ports);
    if !a.ok then Step(Err(NoLocalPort), cache[key := kept], a.used, None, fetched)
    else
      var resolved := ResolvedFrom(kept);
      var name := if entry.failed then Stale else Fresh;
      Step(Ok(resolved), cache[key := kept], a.used,
           Some(Status(name, Some(resolved.id), Some(kept.fetchedAt), Locals(kept.ports))), fetched)
  }

  function FromCache(cache: Cache, used: set<Port>, peer: BundlePeer): Step
    requires KeyOf(peer) in cache
  {
    var key := KeyOf(peer);
    if !Resolvable(cache[key]) then
      Step(Err(Backoff), cache, used, Some(Status(Failing, peer.alias, None, [])), false)
    else Serve(cache, used, key, cache[key], false)
  }

  function Store(cache: Cache, used: set<Port>, peer: BundlePeer, card: Card, now: nat): Step {
    var key, a := KeyOf(peer), Assign(SortedUnique(card.ports), used);
    if !a.ok then Step(Err(NoLocalPort), cache, a.used, None, true)
    else
      var id := if peer.alias.Some? then peer.alias.value else card.id;
      var entry := CachedPeer(peer.alias, Some(id), a.ports, Some(card.publicIp), Some(card.references),
                              now, now + Ttl(card.ttl), peer.fingerprint, false);
      Step(Ok(Resolved(id, card.publicIp, a.ports, card.references)), cache[key := entry], a.used,
           Some(Status(Fresh, Some(id), Some(now), Locals(a.ports))), true)
  }

  function Fallback(cache: Cache, used: set<Port>, peer: BundlePeer, error: FetchError, now: nat): Step {
    var key := KeyOf(peer);
    if key !in cache then
      Step(Err(FetchFailed), cache[key := Negative(peer, now)], used,
           Some(Status(Failing, peer.alias, None, [])), true)
    else
      var aged := cache[key].(nextRefresh := now + FETCH_FAILURE_BACKOFF, failed := true, alias := peer.alias,
                              fingerprint := peer.fingerprint);
      if AllowsStale(error) && Resolvable(aged) then Serve(cache, used, key, aged, true)
      else
        var entry := if AllowsStale(error) then aged.(fetchedAt := now) else Negative(peer, now);
        var lastSuccess := if Resolvable(cache[key]) then Some(cache[key].fetchedAt) else None;
        Step(Err(FetchFailed), cache[key := entry], used, Some(Status(Failing, peer.alias, lastSuccess, [])), true)
  }

  function Resolve(cache: Cache, used: set<Port>, v: Visit): Step {
    if UsesCache(cache, v.peer, v.now) then FromCache(cache, used, v.peer)
    else
      match v.fetch
      case Ok(card) => Store(cache, used, v.peer, card, v.now)
      case Err(error) => Fallback(cache, used, v.peer, error, v.now)
  }

  // ---------------------------------------------------------------- a sync of the whole bundle

  datatype Ingress = Ingress(local: Port, host: string, remote: Port, references: References)

  /** `base` are the ports reserved before the first peer and `taken` the mesh directory's names. */
  datatype State = State(
    cache: Cache, statuses: map<Key, Status>, base: set<Port>, taken: set<string>, used: set<Port>,
    ingress: seq<Ingress>, directory: map<string, seq<Port>>, active: set<Key>)

  datatype Action =
    /** The bundle is absent: the daemon forgets every peer. */
    | NoBundle
    /** A sync starts with these ports reserved and these names in the mesh directory. */
    | Begin(reserved: set<Port>, names: set<string>)
    | Peer(visit: Visit)
    /** The sync ends: entries of peers that are no longer listed are dropped. */
    | End

  function IngressOf(r: Resolved): (s: seq<Ingress>)
    ensures |s| == |r.ports| && forall i :: 0 <= i < |s| ==> s[i].local == r.ports[i].local
  {
    IngressFrom(r, r.ports)
  }

  function IngressFrom(r: Resolved, ports: seq<CachedPort>): (s: seq<Ingress>)
    ensures |s| == |ports|
    ensures forall i :: 0 <= i < |s| ==> s[i] == Ingress(ports[i].local, r.publicIp, ports[i].remote, r.references)
  {
    if ports == [] then []
    else
      var n := |ports| - 1;
      IngressFrom(r, ports[..n]) + [Ingress(ports[n].local, r.publicIp, ports[n].remote, r.references)]
  }

  /** One peer of a sync: its answer is published unless its name is already in the directory. */
  function VisitPeer(s: State, v: Visit): State {
    Record(s, v.peer, Resolve(s.cache, s.used, v))
  }

  function Record(s: State, peer: BundlePeer, step: Step): State {
    var key := KeyOf(peer);
    var t := s.(cache := step.cache, used := step.used, active := s.active + {key});
    var noted := if step.status.Some? then s.statuses[key := step.status.value] else s.statuses;
    match step.result
    case Ok(resolved) =>
      if resolved.id in s.taken || resolved.id in s.directory then
        t.(statuses := noted[key := Status(Failing, Some(resolved.id), None, [])])
      else
        t.(statuses := noted, ingress := s.ingress + IngressOf(resolved),
           directory := s.directory[resolved.id := Locals(resolved.ports)])
    case Err(_) =>
      t.(statuses := if key in noted then noted else noted[key := Status(Failing, peer.alias, None, [])])
  }

  function Next(self: string, s: State, a: Action): State {
    match a
    case NoBundle => s.(cache := map[], statuses := map[])
    case Begin(reserved, names) => State(s.cache, map[], reserved, names, reserved, [], map[], {})
    case Peer(visit) => if ScopedTo(visit.peer, self) then VisitPeer(s, visit) else s
    case End => s.(cache := map k | k in s.cache && k in s.active :: s.cache[k])
  }

  function After(self: string, actions: seq<Action>): State {
    if actions == [] then State(map[], map[], {}, {}, {}, [], map[], {})
    else Next(self, After(self, actions[..|actions| - 1]), actions[|actions| - 1])
  }

  /** Runs actions from a given state. */
  function RunFrom(self: string, s: State, visits: seq<Visit>): State {
    if visits == [] then s
    else Next(self, RunFrom(self, s, visits[..|visits| - 1]), Peer(visits[|visits| - 1]))
  }

  // ---------------------------------------------------------------- the daemon's methods

  /** The part of the daemon's state that the A2A code owns. */
  class Daemon {
    var cache: Cache
    var statuses: map<Key, Status>

    method ServeFromCache(used: PortSet, key: Key, entry: CachedPeer) returns (r: Result<Resolved, ResolveError>)
      requires Resolvable(entry)
      modifies this, used
      ensures forall fetched :: var step := Serve(old(cache), old(used.ports), key, entry, fetched);
        && r == step.result && cache == step.cache && used.ports == step.used
        && statuses == if step.status.Some? then old(statuses)[key := step.status.value] else old(statuses)
    {
      var ok, ports := EnsurePortsAvailable(entry.ports, used);
      var kept := entry.(ports := ports);
      cache := cache[key := kept];
      if !ok {
        return Err(NoLocalPort);
      }
      var resolved := ResolvedFrom(kept);
      var name := if entry.failed then Stale else Fresh;
      statuses := statuses[key := Status(name, Some(resolved.id), Some(kept.fetchedAt), Locals(kept.ports))];
      r := Ok(resolved);
    }

    method StoreCard(used: PortSet, peer: BundlePeer, card: Card, now: nat) returns (r: Result<Resolved, ResolveError>)
      modifies this, used
      ensures var step := Store(old(cache), old(used.ports), peer, card, now);
        && r == step.result && cache == step.cache && used.ports == step.used
        && statuses == if step.status.Some? then old(statuses)[KeyOf(peer) := step.status.value] else old(statuses)
    {
      var ok, ports := AssignPorts(SortedUnique(card.ports), used);
      if !ok {
        return Err(NoLocalPort);
      }
      var key, id := KeyOf(peer), if peer.alias.Some? then peer.alias.value else card.id;
      cache := cache[key := CachedPeer(peer.alias, Some(id), ports, Some(card.publicIp), Some(card.references),
                                       now, now + Ttl(card.ttl), peer.fingerprint, false)];
      statuses := statuses[key := Status(Fresh, Some(id), Some(now), Locals(ports))];
      r := Ok(Resolved(id, card.publicIp, ports, card.references));
    }

    /** `resolve_a2a_peer`. */
    method ResolvePeer(used: PortSet, v: Visit) returns (r: Result<Resolved, ResolveError>)
      modifies this, used
      ensures var step := Resolve(old(cache), old(used.ports), v);
        && r == step.result && cache == step.cache && used.ports == step.used
        && statuses == if step.status.Some? then old(statuses)[KeyOf(v.peer) := step.status.value] else old(statuses)
    {
      var peer, now, key := v.peer, v.now, KeyOf(v.peer);
      if UsesCache(cache, peer, now) {
        if !Resolvable(cache[key]) {
          statuses := statuses[key := Status(Failing, peer.alias, None, [])];
          return Err(Backoff);
        }
        r := ServeFromCache(used, key, cache[key]);
        return;
      }
      if v.fetch.Ok? {
        r := StoreCard(used, peer, v.fetch.value, now);
        return;
      }
      if key !in cache {
        cache := cache[key := Negative(peer, now)];
        statuses := statuses[key := Status(Failing, peer.alias, None, [])];
        return Err(FetchFailed);
      }
      var error := v.fetch.error;
      var cached := cache[key];
      var lastSuccess := if Resolvable(cached) then Some(cached.fetchedAt) else None;
      cached := cached.(nextRefresh := now + FETCH_FAILURE_BACKOFF, failed := true, alias := peer.alias,
                        fingerprint := peer.fingerprint);
      if AllowsStale(error) && Resolvable(cached) {
        r := ServeFromCache(used, key, cached);
        return;
      }
      if AllowsStale(error) {
        cached := cached.(fetchedAt := now);
      } else {
        cached := Negative(peer, now);
      }
      cache := cache[key := cached];
      statuses := statuses[key := Status(Failing, peer.alias, lastSuccess, [])];
      r := Err(FetchFailed);
    }

    /** `a2a_tng_ingress`, with the oracle's answers beside the peers. */
    method SyncPeers(visits: seq<Visit>, self: string, reserved: set<Port>, names: set<string>)
      returns (ingress: seq<Ingress>, directory: map<string, seq<Port>>, ghost s: State)
      modifies this
      ensures s == Next(self, RunFrom(self, Next(self, State(old(cache), old(statuses), {}, {}, {}, [], map[], {}),
                                                 Begin(reserved, names)), visits), End)
      ensures cache == s.cache && statuses == s.statuses && ingress == s.ingress && directory == s.directory
    {
      s := Next(self, State(cache, statuses, {}, {}, {}, [], map[], {}), Begin(reserved, names));
      ghost var start := s;
      ingress, directory := [], map[];
      var used := new PortSet(reserved);
      var active := {};
      statuses := map[];
      for i := 0 to |visits|
        invariant s == RunFrom(self, start, visits[..i])
        invariant s == State(cache, statuses, reserved, names, used.ports, ingress, directory, active)
      {
        assert visits[..i + 1][..i] == visits[..i];
        var v := visits[i];
        s := Next(self, s, Peer(v));
        if ScopedTo(v.peer, self) {
          var key := KeyOf(v.peer);
          active := active + {key};
          var result := ResolvePeer(used, v);
          match result
          case Ok(resolved) =>
            if resolved.id in names || resolved.id in directory {
              statuses := statuses[key := Status(Failing, Some(resolved.id), None, [])];
            } else {
              var added := PushIngress(resolved);
              ingress := ingress + added;
              directory := directory[resolved.id := Locals(resolved.ports)];
            }
          case Err(_) =>
            if key !in statuses {
              statuses := statuses[key := Status(Failing, v.peer.alias, None, [])];
            }
        }
      }
      assert visits[..|visits|] == visits;
      s := Next(self, s, End);
      cache := map k | k in cache && k in active :: cache[k];
    }
  }

  /** The inner loop over a resolved peer's ports. */
  method PushIngress(r: Resolved) returns (ingress: seq<Ingress>)
    ensures ingress == IngressOf(r)
  {
    ingress := [];
    for i := 0 to |r.ports|
      invariant ingress == IngressFrom(r, r.ports[..i])
    {
      assert r.ports[..i + 1][..i] == r.ports[..i];
      ingress := ingress + [Ingress(r.ports[i].local, r.publicIp, r.ports[i].remote, r.references)];
    }
    assert r.ports[..|r.ports|] == r.ports;
  }
}
