/**
 Runs of the A2A cache: over every sequence of bundles, syncs and fetch outcomes, which ports are
 published, where answers come from, and how often cards are fetched.
 */
module A2aRuns {
  import opened Results
  import opened Ports
  import opened A2aCache
  import MeshPlanner
  import MeshRouting
  import MeshSchema

  // ---------------------------------------------------------------- assigned ports

  /** Local ports that are distinct, were all free, and are all that was added to the ports in use. */
  ghost predicate FreshPorts(locals: seq<Port>, used: set<Port>, after: set<Port>) {
    Distinct(locals) && AddedPorts(locals, used, after)
  }

  /** The same, but a port may occur twice. */
  ghost predicate AddedPorts(locals: seq<Port>, used: set<Port>, after: set<Port>) {
    (forall p :: p in locals ==> p !in used) && after == used + Elements(locals)
  }

  lemma OneMorePort(locals: seq<Port>, used: set<Port>, after: set<Port>, p: Port)
    requires FreshPorts(locals, used, after) && p !in after
    ensures FreshPorts(locals + [p], used, after + {p})
  {
    assert Elements(locals + [p]) == Elements(locals) + {p};
    assert forall q :: q in locals ==> q in Elements(locals);
  }

  /** One more port at the end. */
  lemma LastPort(ports: seq<CachedPort>, p: CachedPort)
    ensures Locals(ports + [p]) == Locals(ports) + [p.local] && Remotes(ports + [p]) == Remotes(ports) + [p.remote]
  {
    assert (ports + [p])[..|ports|] == ports;
  }

  /** Ports given out together are fresh. */
  lemma {:induction false} AssignGivesFreePorts(remotes: seq<Port>, used: set<Port>)
    ensures FreshPorts(Locals(Assign(remotes, used).ports), used, Assign(remotes, used).used)
  {
    if remotes != [] {
      var n := |remotes| - 1;
      AssignGivesFreePorts(remotes[..n], used);
      var a := Assign(remotes[..n], used);
      var local := LocalFor(remotes[n], a.used);
      if a.ok && local.Some? {
        LastPort(a.ports, CachedPort(remotes[n], local.value));
        OneMorePort(Locals(a.ports), used, a.used, local.value);
      }
    }
  }

  lemma NextRemote(given: seq<CachedPort>, remotes: seq<Port>, local: Port)
    requires |given| + 1 == |remotes| && Remotes(given) == remotes[..|given|]
    ensures Remotes(given + [CachedPort(remotes[|given|], local)]) == remotes
  {
    LastPort(given, CachedPort(remotes[|given|], local));
  }

  /** They belong to the remotes in order. */
  lemma {:induction false} AssignKeepsRemotes(remotes: seq<Port>, used: set<Port>)
    ensures Remotes(Assign(remotes, used).ports) == remotes[..|Assign(remotes, used).ports|]
  {
    if remotes != [] {
      var n := |remotes| - 1;
      AssignKeepsRemotes(remotes[..n], used);
      var a := Assign(remotes[..n], used);
      assert remotes[..n][..|a.ports|] == remotes[..|a.ports|];
      var local := LocalFor(remotes[n], a.used);
      if a.ok && local.Some? {
        NextRemote(a.ports, remotes, local.value);
        assert remotes[..n + 1] == remotes;
      }
    }
  }

  /** A port that the allocation for these remotes may give out: one of their own numbers, or one in the
      range searched. */
  predicate Allocatable(p: Port, remotes: seq<Port>) {
    FIRST_LOCAL_PORT <= p <= MeshPlanner.LAST_INTERNAL_PORT || (p != 0 && p in remotes)
  }

  lemma AllocatableGrows(remotes: seq<Port>, r: Port)
    ensures forall p :: Allocatable(p, remotes + [r]) <==> Allocatable(p, remotes) || (p != 0 && p == r)
  {
  }

  /** What is given out was allocatable, and every own number tried is in use afterwards. */
  lemma {:induction false} AssignTakesAllocatable(remotes: seq<Port>, used: set<Port>)
    ensures var a := Assign(remotes, used); var tried := remotes[..|a.ports|];
      && (forall p :: p in a.used ==> p in used || Allocatable(p, tried))
      && (forall p :: p in tried && p != 0 ==> p in a.used)
  {
    if remotes != [] {
      var n := |remotes| - 1;
      AssignTakesAllocatable(remotes[..n], used);
      var a := Assign(remotes[..n], used);
      var local := LocalFor(remotes[n], a.used);
      if a.ok && local.Some? {
        assert remotes[..n + 1] == remotes[..n][..n] + [remotes[n]];
        AllocatableGrows(remotes[..n][..n], remotes[n]);
      } else if a.ok {
        assert remotes[..n][..n] == remotes[..n];
      }
    }
  }

  /** The allocation fails only when the whole searched range is in use. */
  lemma {:induction false} FailureMeansFull(remotes: seq<Port>, used: set<Port>)
    requires !Assign(remotes, used).ok
    ensures forall p: Port ::
      FIRST_LOCAL_PORT <= p <= MeshPlanner.LAST_INTERNAL_PORT ==> p in Assign(remotes, used).used
  {
    var n := |remotes| - 1;
    if !Assign(remotes[..n], used).ok {
      FailureMeansFull(remotes[..n], used);
    }
  }

  /** So a failed allocation has given out exactly the free ports that it could. */
  lemma FailureGivesExactly(remotes: seq<Port>, used: set<Port>, p: Port)
    requires !Assign(remotes, used).ok
    ensures var given := Assign(remotes, used).ports;
      p in Locals(given) <==> p !in used && Allocatable(p, remotes[..|given|])
  {
    AssignTakesAllocatable(remotes, used);
    FailureMeansFull(remotes, used);
    AssignGivesFreePorts(remotes, used);
    assert p in Elements(Locals(Assign(remotes, used).ports)) <==> p in Locals(Assign(remotes, used).ports);
  }

  lemma KeptPortsAreAdded(ports: seq<CachedPort>, used: set<Port>)
    requires AllFree(ports, used)
    ensures AddedPorts(Locals(ports), used, used + Elements(Locals(ports)))
  {
    forall p | p in Locals(ports) ensures p !in used {
      var i :| 0 <= i < |ports| && Locals(ports)[i] == p;
      assert ports[i] in ports;
    }
  }

  lemma LocalsJoin(a: seq<CachedPort>, b: seq<CachedPort>)
    ensures Locals(a + b) == Locals(a) + Locals(b)
  {
  }

  lemma RemotesJoin(a: seq<CachedPort>, b: seq<CachedPort>)
    ensures Remotes(a + b) == Remotes(a) + Remotes(b)
  {
  }

  lemma FromThere(ports: seq<CachedPort>, k: nat)
    requires k <= |ports|
    ensures Locals(ports[k..]) == Locals(ports)[k..] && Remotes(ports[k..]) == Remotes(ports)[k..]
  {
    assert ports == ports[..k] + ports[k..];
    LocalsJoin(ports[..k], ports[k..]);
    RemotesJoin(ports[..k], ports[k..]);
  }

  /** Available ports keep their remotes in any case. */
  lemma AvailableKeepsRemotes(ports: seq<CachedPort>, used: set<Port>)
    ensures Remotes(Available(ports, used).ports) == Remotes(ports)
  {
    if !AllFree(ports, used) {
      var b := Assign(Remotes(ports), used);
      AssignKeepsRemotes(Remotes(ports), used);
      FromThere(ports, |b.ports|);
      RemotesJoin(b.ports, ports[|b.ports|..]);
      assert Remotes(ports) == Remotes(ports)[..|b.ports|] + Remotes(ports)[|b.ports|..];
    }
  }

  /** Cached ports that are made available were free, and are distinct unless the entry held one twice and
      all of its ports were free; they stay as they are if none was in use. */
  lemma AvailableGivesFreePorts(ports: seq<CachedPort>, used: set<Port>)
    ensures var a := Available(ports, used);
      && Remotes(a.ports) == Remotes(ports) && used <= a.used
      && (AllFree(ports, used) ==> a.ok && a.ports == ports)
      && (a.ok ==> AddedPorts(Locals(a.ports), used, a.used))
      && (a.ok ==> (Distinct(Locals(a.ports)) <==> AllFree(ports, used) ==> Distinct(Locals(ports))))
  {
    AvailableKeepsRemotes(ports, used);
    if AllFree(ports, used) {
      KeptPortsAreAdded(ports, used);
    } else {
      var b := Assign(Remotes(ports), used);
      AssignGivesFreePorts(Remotes(ports), used);
      if b.ok {
        assert b.ports + ports[|b.ports|..] == b.ports;
      }
    }
  }

  lemma JoinedDistinctExactly<T>(a: seq<T>, b: seq<T>)
    requires Distinct(a)
    ensures Distinct(a + b) <==> Distinct(b) && forall x :: x in b ==> x !in a
  {
    var all := a + b;
    if Distinct(all) {
      forall i, j | 0 <= i < j < |b| ensures b[i] != b[j] {
        assert all[|a| + i] != all[|a| + j];
      }
      forall x | x in b ensures x !in a {
        var j :| 0 <= j < |b| && b[j] == x;
        assert forall i :: 0 <= i < |a| ==> all[i] == a[i] && all[i] != all[|a| + j];
      }
    }
    if Distinct(b) && forall x :: x in b ==> x !in a {
      forall i, j | 0 <= i < j < |all| ensures all[i] != all[j] {
        if i < |a| <= j {
          assert all[i] == a[i] && all[j] == b[j - |a|];
          assert a[i] in a && b[j - |a|] in b;
        } else if j < |a| {
          assert all[i] == a[i] && all[j] == a[j];
        } else {
          assert all[i] == b[i - |a|] && all[j] == b[j - |a|];
        }
      }
    }
  }

  /** The ports `rest` that a reassignment did not reach hold none of those given out for the remotes it
      had tried: each was in use before, or could not be given out. */
  ghost predicate RestKeepsApart(rest: seq<Port>, tried: seq<Port>, used: set<Port>) {
    Distinct(rest) && forall p :: p in rest ==> p in used || !Allocatable(p, tried)
  }

  /** The ports that a failed reassignment leaves as they were. */
  function Unreached(ports: seq<CachedPort>, used: set<Port>): seq<Port> {
    Locals(ports)[|Assign(Remotes(ports), used).ports|..]
  }

  /** The remotes that it has given new ports. */
  function Tried(ports: seq<CachedPort>, used: set<Port>): seq<Port> {
    Remotes(ports)[..|Assign(Remotes(ports), used).ports|]
  }

  /** When ports run out in the middle of a reassignment, the entry is left with distinct ports exactly
      when the ports not reached are distinct and each was in use before or could not be given out. */
  lemma ExhaustionLeavesDistinctExactly(ports: seq<CachedPort>, used: set<Port>)
    requires !Available(ports, used).ok
    ensures Distinct(Locals(Available(ports, used).ports))
       <==> RestKeepsApart(Unreached(ports, used), Tried(ports, used), used)
  {
    var b := Assign(Remotes(ports), used);
    FromThere(ports, |b.ports|);
    LocalsJoin(b.ports, ports[|b.ports|..]);
    AssignGivesFreePorts(Remotes(ports), used);
    JoinedDistinctExactly(Locals(b.ports), Unreached(ports, used));
    forall p ensures p in Locals(b.ports) <==> p !in used && Allocatable(p, Tried(ports, used)) {
      FailureGivesExactly(Remotes(ports), used, p);
    }
  }

  lemma DistinctFrom(s: seq<Port>, k: nat)
    requires Distinct(s) && k <= |s|
    ensures Distinct(s[k..]) && forall p :: p in s[k..] ==> p in s
  {
    forall i, j | 0 <= i < j < |s| - k ensures s[k..][i] != s[k..][j] {
      assert s[k + i] != s[k + j];
    }
  }

  ghost predicate InRange(locals: seq<Port>) {
    forall p :: p in locals ==> FIRST_LOCAL_PORT <= p <= MeshPlanner.LAST_INTERNAL_PORT
  }

  lemma InRangeRestApart(rest: seq<Port>, tried: seq<Port>, used: set<Port>)
    requires Distinct(rest) && InRange(rest)
    ensures RestKeepsApart(rest, tried, used) <==> forall p :: p in rest ==> p in used
  {
  }

  /** For distinct ports of the searched range: exactly when every port not reached was in use before. */
  lemma ExhaustionInRange(ports: seq<CachedPort>, used: set<Port>)
    requires !Available(ports, used).ok && Distinct(Locals(ports)) && InRange(Locals(ports))
    ensures Distinct(Locals(Available(ports, used).ports)) <==> forall p :: p in Unreached(ports, used) ==> p in used
  {
    ExhaustionLeavesDistinctExactly(ports, used);
    DistinctFrom(Locals(ports), |Assign(Remotes(ports), used).ports|);
    InRangeRestApart(Unreached(ports, used), Tried(ports, used), used);
  }

  // ---------------------------------------------------------------- cached ports

  ghost predicate CacheDistinct(cache: Cache) {
    forall k :: k in cache ==> Distinct(Locals(cache[k].ports))
  }

  /** The cached entry that a visit is answered from, if any. */
  function Served(cache: Cache, v: Visit): Option<CachedPeer> {
    var key := KeyOf(v.peer);
    if UsesCache(cache, v.peer, v.now) then if Resolvable(cache[key]) then Some(cache[key]) else None
    else if v.fetch.Err? && key in cache && AllowsStale(v.fetch.error) && Resolvable(cache[key]) then
      Some(cache[key].(nextRefresh := v.now + FETCH_FAILURE_BACKOFF, failed := true, alias := v.peer.alias,
                       fingerprint := v.peer.fingerprint))
    else None
  }

  lemma ServedAnswers(cache: Cache, used: set<Port>, v: Visit)
    requires Served(cache, v).Some?
    ensures KeyOf(v.peer) in cache && Served(cache, v).value.ports == cache[KeyOf(v.peer)].ports
    ensures Resolvable(Served(cache, v).value)
    ensures Resolve(cache, used, v)
         == Serve(cache, used, KeyOf(v.peer), Served(cache, v).value, !UsesCache(cache, v.peer, v.now))
  {
  }

  /** A visit that is not answered from the cache gives out new ports or none. */
  lemma UnservedEffect(cache: Cache, used: set<Port>, v: Visit)
    requires Served(cache, v).None?
    ensures var step, key := Resolve(cache, used, v), KeyOf(v.peer);
      && (v.fetch.Ok? && !UsesCache(cache, v.peer, v.now) ==> step == Store(cache, used, v.peer, v.fetch.value, v.now))
      && (v.fetch.Err? || UsesCache(cache, v.peer, v.now) ==> step.result.Err? && step.used == used)
      && (v.fetch.Err? || UsesCache(cache, v.peer, v.now) ==>
            || step.cache == cache
            || exists e ::
                 step.cache == cache[key := e] && (e.ports == [] || (key in cache && e.ports == cache[key].ports)))
  {
  }

  lemma UpdateDistinct(cache: Cache, key: Key, e: CachedPeer)
    requires CacheDistinct(cache)
    ensures CacheDistinct(cache[key := e]) <==> Distinct(Locals(e.ports))
  {
    var after := cache[key := e];
    assert after[key] == e;
    assert forall k :: k in after && k != key ==> k in cache && after[k] == cache[k];
  }

  /** The visit runs out of ports while reassigning a cached entry, and a port that was not reached had
      been free and allocatable. */
  ghost predicate LeavesDuplicate(self: string, s: State, a: Action) {
    && a.Peer? && ScopedTo(a.visit.peer, self) && Served(s.cache, a.visit).Some?
    && var ports := Served(s.cache, a.visit).value.ports;
       && !AllFree(ports, s.used)
       && !Assign(Remotes(ports), s.used).ok
       && !RestKeepsApart(Unreached(ports, s.used), Tried(ports, s.used), s.used)
  }

  lemma ServedDistinctExactly(self: string, s: State, v: Visit)
    requires CacheDistinct(s.cache) && Served(s.cache, v).Some? && ScopedTo(v.peer, self)
    ensures CacheDistinct(Resolve(s.cache, s.used, v).cache) <==> !LeavesDuplicate(self, s, Peer(v))
  {
    var e := Served(s.cache, v).value;
    var a := Available(e.ports, s.used);
    ServedAnswers(s.cache, s.used, v);
    UpdateDistinct(s.cache, KeyOf(v.peer), e.(ports := a.ports));
    AvailableGivesFreePorts(e.ports, s.used);
    if !a.ok {
      ExhaustionLeavesDistinctExactly(e.ports, s.used);
    }
  }

  lemma UnservedKeepsDistinct(cache: Cache, used: set<Port>, v: Visit)
    requires CacheDistinct(cache) && Served(cache, v).None?
    ensures CacheDistinct(Resolve(cache, used, v).cache)
  {
    var step, key := Resolve(cache, used, v), KeyOf(v.peer);
    UnservedEffect(cache, used, v);
    if v.fetch.Ok? && !UsesCache(cache, v.peer, v.now) {
      AssignGivesFreePorts(SortedUnique(v.fetch.value.ports), used);
      if step.result.Ok? {
        UpdateDistinct(cache, key, step.cache[key]);
      }
    } else if step.cache != cache {
      var e :| step.cache == cache[key := e] && (e.ports == [] || (key in cache && e.ports == cache[key].ports));
      UpdateDistinct(cache, key, e);
    }
  }

  lemma VisitKeepsCacheExactly(self: string, s: State, v: Visit)
    requires CacheDistinct(s.cache) && ScopedTo(v.peer, self)
    ensures CacheDistinct(Resolve(s.cache, s.used, v).cache) <==> !LeavesDuplicate(self, s, Peer(v))
  {
    if Served(s.cache, v).Some? {
      ServedDistinctExactly(self, s, v);
    } else {
      UnservedKeepsDistinct(s.cache, s.used, v);
    }
  }

  lemma RecordCaches(s: State, peer: BundlePeer, step: Step)
    ensures var t := Record(s, peer, step);
      t.cache == step.cache && t.used == step.used && t.base == s.base && t.active == s.active + {KeyOf(peer)}
  {
  }

  lemma NextKeepsCacheExactly(self: string, s: State, a: Action)
    requires CacheDistinct(s.cache)
    ensures CacheDistinct(Next(self, s, a).cache) <==> !LeavesDuplicate(self, s, a)
  {
    match a
    case NoBundle =>
    case Begin(_, _) =>
    case End =>
    case Peer(v) =>
      if ScopedTo(v.peer, self) {
        VisitKeepsCacheExactly(self, s, v);
        RecordCaches(s, v.peer, Resolve(s.cache, s.used, v));
      }
  }

  /** After every action so far the cached ports of every peer were distinct. */
  ghost predicate AlwaysDistinct(self: string, actions: seq<Action>) {
    && CacheDistinct(After(self, actions).cache)
    && (actions != [] ==> AlwaysDistinct(self, actions[..|actions| - 1]))
  }

  ghost predicate NeverLeavesDuplicate(self: string, actions: seq<Action>) {
    actions == [] ||
    (var n := |actions| - 1;
     NeverLeavesDuplicate(self, actions[..n]) && !LeavesDuplicate(self, After(self, actions[..n]), actions[n]))
  }

  /** In every state of a run the cached ports of every peer are distinct, exactly when no visit has run out
      of ports leaving one that was free and allocatable not reached. */
  lemma {:induction false} CacheDistinctExactly(self: string, actions: seq<Action>)
    ensures AlwaysDistinct(self, actions) <==> NeverLeavesDuplicate(self, actions)
  {
    if actions != [] {
      var n := |actions| - 1;
      CacheDistinctExactly(self, actions[..n]);
      if AlwaysDistinct(self, actions[..n]) {
        NextKeepsCacheExactly(self, After(self, actions[..n]), actions[n]);
      }
    }
  }

  // ---------------------------------------------------------------- published ports

  /** The local ports of a list of ingress routes. */
  function Published(ingress: seq<Ingress>): (r: seq<Port>)
    ensures |r| == |ingress| && forall i :: 0 <= i < |r| ==> r[i] == ingress[i].local
  {
    if ingress == [] then [] else Published(ingress[..|ingress| - 1]) + [ingress[|ingress| - 1].local]
  }

  /** Published ports are in use and apart from the reserved ones. */
  ghost predicate PortsHeld(s: State) {
    s.base <= s.used && forall p :: p in Published(s.ingress) ==> p in s.used && p !in s.base
  }

  /** No local port was found for the peer. */
  ghost predicate Exhausts(self: string, s: State, a: Action) {
    a.Peer? && ScopedTo(a.visit.peer, self) && Resolve(s.cache, s.used, a.visit).result == Err(NoLocalPort)
  }

  /** The visit finds all ports of a cached entry free, serves them as they are although one occurs twice,
      and the entry's name is not yet in a directory. */
  ghost predicate ServesDuplicate(self: string, s: State, a: Action) {
    && a.Peer? && ScopedTo(a.visit.peer, self) && Served(s.cache, a.visit).Some?
    && var e := Served(s.cache, a.visit).value;
       && !Distinct(Locals(e.ports)) && AllFree(e.ports, s.used)
       && Resolvable(e) && ResolvedFrom(e).id !in s.taken && ResolvedFrom(e).id !in s.directory
  }

  /** The ports of an answer were free, and are distinct unless a duplicate is served. */
  lemma ResolveGivesFreePorts(cache: Cache, used: set<Port>, v: Visit)
    ensures var step := Resolve(cache, used, v);
      && used <= step.used
      && (step.result.Ok? ==> AddedPorts(Locals(step.result.value.ports), used, step.used))
      && (step.result.Ok? && Served(cache, v).None? ==> Distinct(Locals(step.result.value.ports)))
  {
    if Served(cache, v).Some? {
      ServedAnswers(cache, used, v);
      AvailableGivesFreePorts(Served(cache, v).value.ports, used);
    } else {
      UnservedEffect(cache, used, v);
      if v.fetch.Ok? && !UsesCache(cache, v.peer, v.now) {
        AssignGivesFreePorts(SortedUnique(v.fetch.value.ports), used);
      }
    }
  }

  /** An answer from the cache: a duplicate is one exactly when it was cached and all its ports were free. */
  lemma ServedAnswer(cache: Cache, used: set<Port>, v: Visit)
    requires Served(cache, v).Some? && Resolve(cache, used, v).result.Ok?
    ensures var e, r := Served(cache, v).value, Resolve(cache, used, v).result.value;
      && Resolvable(e) && r.id == ResolvedFrom(e).id
      && (Distinct(Locals(r.ports)) <==> AllFree(e.ports, used) ==> Distinct(Locals(e.ports)))
  {
    ServedAnswers(cache, used, v);
    AvailableGivesFreePorts(Served(cache, v).value.ports, used);
  }

  lemma {:induction false} PublishedJoins(a: seq<Ingress>, b: seq<Ingress>)
    ensures Published(a + b) == Published(a) + Published(b)
  {
  }

  lemma PublishedIngress(r: Resolved)
    ensures Published(IngressOf(r)) == Locals(r.ports)
  {
  }

  /** Whether an answer is published: its name is in neither directory. */
  ghost predicate Publishes(s: State, step: Step) {
    step.result.Ok? && step.result.value.id !in s.taken && step.result.value.id !in s.directory
  }

  /** What a visit publishes: nothing new, or the answer's ports. */
  lemma RecordPublishes(s: State, peer: BundlePeer, step: Step)
    ensures var t := Record(s, peer, step);
      if Publishes(s, step) then Published(t.ingress) == Published(s.ingress) + Locals(step.result.value.ports)
      else t.ingress == s.ingress
  {
    if Publishes(s, step) {
      PublishedJoins(s.ingress, IngressOf(step.result.value));
      PublishedIngress(step.result.value);
    }
  }

  lemma RecordKeepsPortsHeld(s: State, peer: BundlePeer, step: Step)
    requires PortsHeld(s) && s.used <= step.used
    requires step.result.Ok? ==> AddedPorts(Locals(step.result.value.ports), s.used, step.used)
    ensures PortsHeld(Record(s, peer, step))
  {
    RecordCaches(s, peer, step);
    RecordPublishes(s, peer, step);
    if Publishes(s, step) {
      var more := Locals(step.result.value.ports);
      forall p | p in Published(s.ingress) + more ensures p in step.used && p !in s.base {
        assert p in Published(s.ingress) || p in Elements(more);
      }
    }
  }

  /** Whatever the peers do, in every state of every run the published local ports are in use and none of
      them was reserved when the sync began. */
  lemma {:induction false} PublishedPortsHeld(self: string, actions: seq<Action>)
    ensures PortsHeld(After(self, actions))
  {
    if actions != [] {
      var n := |actions| - 1;
      PublishedPortsHeld(self, actions[..n]);
      var a := actions[n];
      if a.Peer? && ScopedTo(a.visit.peer, self) {
        var s := After(self, actions[..n]);
        ResolveGivesFreePorts(s.cache, s.used, a.visit);
        RecordKeepsPortsHeld(s, a.visit.peer, Resolve(s.cache, s.used, a.visit));
      }
    }
  }

  lemma RecordPublishesDistinctly(s: State, peer: BundlePeer, step: Step)
    requires PortsHeld(s) && Distinct(Published(s.ingress))
    requires step.result.Ok? ==> AddedPorts(Locals(step.result.value.ports), s.used, step.used)
    ensures Distinct(Published(Record(s, peer, step).ingress))
       <==> (Publishes(s, step) ==> Distinct(Locals(step.result.value.ports)))
  {
    RecordPublishes(s, peer, step);
    if step.result.Ok? {
      JoinedDistinctExactly(Published(s.ingress), Locals(step.result.value.ports));
    }
  }

  /** An answer to be published holds a port twice exactly when the visit serves a duplicate. */
  lemma AnswersDuplicateExactly(self: string, s: State, v: Visit)
    requires ScopedTo(v.peer, self)
    ensures var step := Resolve(s.cache, s.used, v);
      ServesDuplicate(self, s, Peer(v)) <==> Publishes(s, step) && !Distinct(Locals(step.result.value.ports))
  {
    ResolveGivesFreePorts(s.cache, s.used, v);
    if Served(s.cache, v).Some? {
      ServedAnswers(s.cache, s.used, v);
      AvailableGivesFreePorts(Served(s.cache, v).value.ports, s.used);
      if Resolve(s.cache, s.used, v).result.Ok? {
        ServedAnswer(s.cache, s.used, v);
      }
    }
  }

  lemma VisitPublishesDistinctly(self: string, s: State, v: Visit)
    requires PortsHeld(s) && Distinct(Published(s.ingress)) && ScopedTo(v.peer, self)
    ensures Distinct(Published(Next(self, s, Peer(v)).ingress)) <==> !ServesDuplicate(self, s, Peer(v))
  {
    ResolveGivesFreePorts(s.cache, s.used, v);
    AnswersDuplicateExactly(self, s, v);
    RecordPublishesDistinctly(s, v.peer, Resolve(s.cache, s.used, v));
  }

  lemma DuplicateStaysIn(before: seq<Port>, after: seq<Port>)
    requires before <= after && !Distinct(before)
    ensures !Distinct(after)
  {
    var i, j :| 0 <= i < j < |before| && before[i] == before[j];
    assert after[i] == after[j];
  }

  /** Served duplicates stay published until the next sync begins. */
  lemma DuplicateStays(self: string, s: State, a: Action)
    requires !Distinct(Published(s.ingress)) && !a.Begin?
    ensures !Distinct(Published(Next(self, s, a).ingress))
  {
    if a.Peer? && ScopedTo(a.visit.peer, self) {
      RecordPublishes(s, a.visit.peer, Resolve(s.cache, s.used, a.visit));
      DuplicateStaysIn(Published(s.ingress), Published(Next(self, s, a).ingress));
    }
  }

  /** Since the last sync began some visit has served a duplicate. */
  ghost predicate ServedDuplicate(self: string, actions: seq<Action>) {
    actions != [] &&
    (var n := |actions| - 1;
     && !actions[n].Begin?
     && (ServedDuplicate(self, actions[..n]) || ServesDuplicate(self, After(self, actions[..n]), actions[n])))
  }

  /** In every state of every run the published local ports are pairwise distinct exactly when no visit of
      the current sync has served a duplicate. */
  lemma {:induction false} PublishedPortsApart(self: string, actions: seq<Action>)
    ensures Distinct(Published(After(self, actions).ingress)) <==> !ServedDuplicate(self, actions)
  {
    if actions != [] {
      var n := |actions| - 1;
      var s, a := After(self, actions[..n]), actions[n];
      PublishedPortsApart(self, actions[..n]);
      if !a.Begin? {
        if ServedDuplicate(self, actions[..n]) {
          DuplicateStays(self, s, a);
        } else if a.Peer? && ScopedTo(a.visit.peer, self) {
          PublishedPortsHeld(self, actions[..n]);
          VisitPublishesDistinctly(self, s, a.visit);
        }
      }
    }
  }

  lemma DistinctCacheServesNone(self: string, s: State, a: Action)
    requires CacheDistinct(s.cache)
    ensures !ServesDuplicate(self, s, a)
  {
    if a.Peer? && Served(s.cache, a.visit).Some? {
      ServedAnswers(s.cache, s.used, a.visit);
    }
  }

  /** In particular they are distinct throughout a run in which exhaustion has left no duplicate. */
  lemma {:induction false} DistinctCachePublishesApart(self: string, actions: seq<Action>)
    requires NeverLeavesDuplicate(self, actions)
    ensures !ServedDuplicate(self, actions) && Distinct(Published(After(self, actions).ingress))
  {
    PublishedPortsApart(self, actions);
    if actions != [] {
      var n := |actions| - 1;
      DistinctCachePublishesApart(self, actions[..n]);
      CacheDistinctExactly(self, actions[..n]);
      DistinctCacheServesNone(self, After(self, actions[..n]), actions[n]);
    }
  }

  /** What a sync reserves before its first peer: application ports, every mesh reservation, and the
      local ports of the mesh directory. */
  function SyncReserved(ownPorts: seq<Port>, registry: MeshSchema.Registry, directory: MeshRouting.ServiceDirectory)
    : set<Port>
  {
    Elements(ownPorts) + registry.Values + set id, d | id in directory && d in directory[id] :: d.port
  }

  lemma NextKeepsBase(self: string, s: State, a: Action)
    requires a.Peer? || a.End?
    ensures Next(self, s, a).base == s.base
  {
    if a.Peer? {
      RecordCaches(s, a.visit.peer, Resolve(s.cache, s.used, a.visit));
    }
  }

  lemma {:induction false} BaseStays(self: string, actions: seq<Action>, i: nat)
    requires i < |actions| && actions[i].Begin?
    requires forall k :: i < k < |actions| ==> actions[k].Peer? || actions[k].End?
    ensures After(self, actions).base == actions[i].reserved
  {
    var n := |actions| - 1;
    if i < n {
      BaseStays(self, actions[..n], i);
      NextKeepsBase(self, After(self, actions[..n]), actions[n]);
    }
  }

  /** So the local ports a sync publishes for A2A peers are never an application port, a mesh reservation
      or a port of the mesh directory. */
  lemma SyncAvoidsMesh(self: string, actions: seq<Action>, i: nat, ownPorts: seq<Port>, registry: MeshSchema.Registry,
                       directory: MeshRouting.ServiceDirectory)
    requires i < |actions|
    requires actions[i] == Begin(SyncReserved(ownPorts, registry, directory), directory.Keys)
    requires forall k :: i < k < |actions| ==> actions[k].Peer? || actions[k].End?
    ensures forall p :: p in Published(After(self, actions).ingress) ==>
      && p !in ownPorts && (forall e :: e in registry ==> registry[e] != p)
      && (forall id, d :: id in directory && d in directory[id] ==> d.port != p)
  {
    PublishedPortsHeld(self, actions);
    BaseStays(self, actions, i);
  }

  /** Unless local ports run out, a peer resolves exactly when its cached answer may still be used and is
      one, or its card is fetched, or the fetch fails in a way that allows stale data and there are. */
  lemma ResolvesExactly(cache: Cache, used: set<Port>, v: Visit)
    requires Resolve(cache, used, v).result != Err(NoLocalPort)
    ensures var key := KeyOf(v.peer);
      Resolve(cache, used, v).result.Ok? <==>
        || (UsesCache(cache, v.peer, v.now) && Resolvable(cache[key]))
        || (!UsesCache(cache, v.peer, v.now) && v.fetch.Ok?)
        || (!UsesCache(cache, v.peer, v.now) && v.fetch.Err? && AllowsStale(v.fetch.error)
            && key in cache && Resolvable(cache[key]))
  {
  }

  lemma SomePortInUse(ports: seq<CachedPort>, used: set<Port>)
    requires !AllFree(ports, used)
    ensures exists p :: p in Locals(ports) && p in used
  {
    var c :| c in ports && c.local in used;
    var i :| 0 <= i < |ports| && ports[i] == c;
    assert Locals(ports)[i] in Locals(ports) && Locals(ports)[i] in used;
  }

  /** A cached peer keeps its ports exactly when none of them is in use. */
  lemma CachedPeerKeepsPorts(cache: Cache, used: set<Port>, v: Visit)
    requires UsesCache(cache, v.peer, v.now) && Resolvable(cache[KeyOf(v.peer)])
    ensures var cached, step := cache[KeyOf(v.peer)], Resolve(cache, used, v);
      step.result == Ok(ResolvedFrom(cached)) <==> AllFree(cached.ports, used)
  {
    var ports := cache[KeyOf(v.peer)].ports;
    AvailableGivesFreePorts(ports, used);
    if !AllFree(ports, used) {
      SomePortInUse(ports, used);
      assert Available(ports, used).ok ==> Available(ports, used).ports != ports;
    }
  }

  /** Running out of ports halfway through leaves a cached peer with one port twice: the first of its
      two ports takes the last free one, which the second still holds. */
  lemma ExhaustionDuplicates(used: set<Port>, a: Port, b: Port, r1: Port, r2: Port)
    requires a in used && MeshPlanner.FirstFree(FIRST_LOCAL_PORT, used) == Some(b)
    requires MeshPlanner.FirstFree(FIRST_LOCAL_PORT, used + {b}) == None
    requires r1 in used && r2 in used
    ensures var result := Available([CachedPort(r1, a), CachedPort(r2, b)], used);
      !result.ok && result.ports == [CachedPort(r1, b), CachedPort(r2, b)]
  {
    var ports := [CachedPort(r1, a), CachedPort(r2, b)];
    assert ports[0] in ports;
    assert Remotes(ports) == [r1, r2];
    assert [r1, r2][..1] == [r1] && [r1][..0] == [];
    assert Assign([r1], used) == Assignment(true, [CachedPort(r1, b)], used + {b});
    assert ports[1..] == [CachedPort(r2, b)];
  }

  /** An entry with one port twice, that port being free, is served as it is. */
  lemma DuplicateIsServed(cache: Cache, used: set<Port>, v: Visit, b: Port, r1: Port, r2: Port)
    requires UsesCache(cache, v.peer, v.now) && b !in used && Resolvable(cache[KeyOf(v.peer)])
    requires cache[KeyOf(v.peer)].ports == [CachedPort(r1, b), CachedPort(r2, b)]
    ensures Resolve(cache, used, v).result == Ok(ResolvedFrom(cache[KeyOf(v.peer)]))
    ensures Locals(ResolvedFrom(cache[KeyOf(v.peer)]).ports) == [b, b]
  {
    CachedPeerKeepsPorts(cache, used, v);
  }

  /** The sync then publishes it twice. */
  lemma DuplicateIsPublished(self: string, s: State, v: Visit, b: Port, r1: Port, r2: Port)
    requires ScopedTo(v.peer, self) && UsesCache(s.cache, v.peer, v.now) && b !in s.used
    requires Resolvable(s.cache[KeyOf(v.peer)])
    requires s.cache[KeyOf(v.peer)].ports == [CachedPort(r1, b), CachedPort(r2, b)]
    requires ResolvedFrom(s.cache[KeyOf(v.peer)]).id !in s.taken + s.directory.Keys
    ensures Published(Next(self, s, Peer(v)).ingress) == Published(s.ingress) + [b, b]
    ensures !Distinct(Published(Next(self, s, Peer(v)).ingress))
  {
    DuplicateIsServed(s.cache, s.used, v, b, r1, r2);
    RecordPublishes(s, v.peer, Resolve(s.cache, s.used, v));
    DuplicateAtEnd(Published(s.ingress), b);
  }

  lemma DuplicateAtEnd(s: seq<Port>, b: Port)
    ensures !Distinct(s + [b, b])
  {
    var all := s + [b, b];
    assert all[|s|] == all[|s| + 1];
  }

  /** The entry that such an exhaustion leaves in the cache. */
  lemma ExhaustionIsCached(self: string, s: State, v: Visit, a: Port, b: Port, r1: Port, r2: Port)
    requires ScopedTo(v.peer, self) && UsesCache(s.cache, v.peer, v.now) && Resolvable(s.cache[KeyOf(v.peer)])
    requires s.cache[KeyOf(v.peer)].ports == [CachedPort(r1, a), CachedPort(r2, b)]
    requires a in s.used && r1 in s.used && r2 in s.used
    requires MeshPlanner.FirstFree(FIRST_LOCAL_PORT, s.used) == Some(b)
    requires MeshPlanner.FirstFree(FIRST_LOCAL_PORT, s.used + {b}) == None
    ensures var key := KeyOf(v.peer);
      Next(self, s, Peer(v)).cache
      == s.cache[key := s.cache[key].(ports := [CachedPort(r1, b), CachedPort(r2, b)])]
  {
    ExhaustionDuplicates(s.used, a, b, r1, r2);
    RecordCaches(s, v.peer, Resolve(s.cache, s.used, v));
  }

  /** The two together: a sync that runs out of ports at a cached peer, then one that begins with the
      duplicated port free and publishes it twice. */
  lemma ExhaustionPublishesTwice(self: string, s: State, first: Visit, second: Visit, a: Port, b: Port, r1: Port,
                                 r2: Port, reserved: set<Port>)
    requires ScopedTo(first.peer, self) && UsesCache(s.cache, first.peer, first.now)
    requires second.peer == first.peer && second.now < s.cache[KeyOf(first.peer)].nextRefresh
    requires Resolvable(s.cache[KeyOf(first.peer)])
    requires s.cache[KeyOf(first.peer)].ports == [CachedPort(r1, a), CachedPort(r2, b)]
    requires a in s.used && r1 in s.used && r2 in s.used && b !in reserved
    requires MeshPlanner.FirstFree(FIRST_LOCAL_PORT, s.used) == Some(b)
    requires MeshPlanner.FirstFree(FIRST_LOCAL_PORT, s.used + {b}) == None
    ensures var t := Next(self, s, Peer(first));
      Published(Next(self, Next(self, t, Begin(reserved, {})), Peer(second)).ingress) == [b, b]
  {
    var t := Next(self, s, Peer(first));
    ExhaustionIsCached(self, s, first, a, b, r1, r2);
    DuplicateIsPublished(self, Next(self, t, Begin(reserved, {})), second, b, r1, r2);
  }

  // ---------------------------------------------------------------- where answers come from

  /** Whether action `i` fetched the peer with this key. */
  ghost predicate Fetches(self: string, actions: seq<Action>, i: nat, key: Key) {
    && i < |actions| && actions[i].Peer? && ScopedTo(actions[i].visit.peer, self)
    && KeyOf(actions[i].visit.peer) == key
    && !UsesCache(After(self, actions[..i]).cache, actions[i].visit.peer, actions[i].visit.now)
  }

  /** A fetch of the peer that failed in a way that does not allow stale data. */
  ghost predicate FailsHard(self: string, s: State, a: Action, key: Key) {
    && a.Peer? && ScopedTo(a.visit.peer, self) && KeyOf(a.visit.peer) == key
    && !UsesCache(s.cache, a.visit.peer, a.visit.now) && a.visit.fetch.Err? && !AllowsStale(a.visit.fetch.error)
  }

  ghost predicate HardFailureSince(self: string, actions: seq<Action>, i: nat, key: Key) {
    |actions| > i + 1 &&
    (var n := |actions| - 1;
     FailsHard(self, After(self, actions[..n]), actions[n], key) || HardFailureSince(self, actions[..n], i, key))
  }

  /** The entry holds what this visit's card said. */
  ghost predicate HoldsCard(c: CachedPeer, v: Visit, card: Card) {
    && v.fetch == Ok(card) && c.publicIp == Some(card.publicIp) && c.references == Some(card.references)
    && Remotes(c.ports) == SortedUnique(card.ports) && c.fetchedAt == v.now
    && (!c.failed ==> c.fingerprint == v.peer.fingerprint && c.nextRefresh == v.now + Ttl(card.ttl))
  }

  /** The entry is the old one but for its local ports and, after a failed fetch, its retry time. */
  ghost predicate SameCard(was: CachedPeer, c: CachedPeer) {
    && Resolvable(was) && c.publicIp == was.publicIp && c.references == was.references
    && Remotes(c.ports) == Remotes(was.ports) && c.fetchedAt == was.fetchedAt
    && (!c.failed ==> !was.failed && c.fingerprint == was.fingerprint && c.nextRefresh == was.nextRefresh)
  }

  lemma SameCardHolds(was: CachedPeer, c: CachedPeer, v: Visit, card: Card)
    requires SameCard(was, c) && HoldsCard(was, v, card)
    ensures HoldsCard(c, v, card)
  {
  }

  lemma ServeKeepsCard(cache: Cache, used: set<Port>, key: Key, entry: CachedPeer, fetched: bool)
    requires Resolvable(entry)
    ensures var step := Serve(cache, used, key, entry, fetched);
      key in step.cache && SameCard(entry, step.cache[key])
      && (step.result.Ok? ==> step.result.value == ResolvedFrom(step.cache[key]))
  {
    AvailableKeepsRemotes(entry.ports, used);
  }

  ghost predicate SameAnswer(r: Resolved, c: CachedPeer) {
    c.publicIp == Some(r.publicIp) && c.references == Some(r.references) && c.ports == r.ports
  }

  lemma StoreHoldsCard(cache: Cache, used: set<Port>, peer: BundlePeer, card: Card, v: Visit)
    requires v.peer == peer && v.fetch == Ok(card)
    ensures var key, step := KeyOf(peer), Store(cache, used, peer, card, v.now);
      && (step.result.Ok? ==> key in step.cache && HoldsCard(step.cache[key], v, card)
                              && SameAnswer(step.result.value, step.cache[key]))
      && (step.result.Err? ==> step.cache == cache)
  {
    AssignKeepsRemotes(SortedUnique(card.ports), used);
  }

  lemma OtherEntriesStay(cache: Cache, used: set<Port>, v: Visit, k: Key)
    requires k != KeyOf(v.peer)
    ensures var step := Resolve(cache, used, v);
      (k in step.cache <==> k in cache) && (k in cache ==> step.cache[k] == cache[k])
  {
  }

  /** How one visit changes the entry of its peer: the entry holds the card just fetched, or it is no
      longer resolvable, or it keeps its card and no hard failure occurred. */
  lemma EntryAfterVisit(cache: Cache, used: set<Port>, v: Visit)
    ensures var key, step := KeyOf(v.peer), Resolve(cache, used, v);
      && (key in step.cache && Resolvable(step.cache[key]) ==>
            || (!UsesCache(cache, v.peer, v.now) && v.fetch.Ok? && HoldsCard(step.cache[key], v, v.fetch.value))
            || (key in cache && SameCard(cache[key], step.cache[key])
                && (UsesCache(cache, v.peer, v.now) || v.fetch.Ok? || AllowsStale(v.fetch.error))))
      && (step.result.Ok? ==> key in step.cache && Resolvable(step.cache[key])
                              && SameAnswer(step.result.value, step.cache[key]))
  {
    var key := KeyOf(v.peer);
    if UsesCache(cache, v.peer, v.now) {
      if Resolvable(cache[key]) {
        ServeKeepsCard(cache, used, key, cache[key], false);
      }
    } else if v.fetch.Ok? {
      StoreHoldsCard(cache, used, v.peer, v.fetch.value, v);
    } else if key in cache {
      var aged := cache[key].(nextRefresh := v.now + FETCH_FAILURE_BACKOFF, failed := true, alias := v.peer.alias,
                              fingerprint := v.peer.fingerprint);
      if Resolvable(aged) {
        ServeKeepsCard(cache, used, key, aged, true);
      }
    }
  }

  ghost predicate Visits(self: string, a: Action, key: Key) {
    a.Peer? && ScopedTo(a.visit.peer, self) && KeyOf(a.visit.peer) == key
  }

  lemma OtherActionsKeepEntry(self: string, s: State, a: Action, key: Key)
    requires !Visits(self, a, key) && key in Next(self, s, a).cache
    ensures key in s.cache && Next(self, s, a).cache[key] == s.cache[key]
  {
    if a.Peer? && ScopedTo(a.visit.peer, self) {
      OtherEntriesStay(s.cache, s.used, a.visit, key);
    }
  }

  /** An origin among the first actions is one among all if the last action is no hard failure. */
  lemma OriginLasts(self: string, actions: seq<Action>, before: seq<Action>, i: nat, key: Key)
    requires actions != [] && before == actions[..|actions| - 1]
    requires Fetches(self, before, i, key) && !HardFailureSince(self, before, i, key)
    requires !FailsHard(self, After(self, before), actions[|actions| - 1], key)
    ensures Fetches(self, actions, i, key) && !HardFailureSince(self, actions, i, key) && actions[i] == before[i]
  {
    assert before[..i] == actions[..i];
  }

  /** A resolvable entry holds the card of the latest successful fetch, and no fetch since has failed in
      a way that forbids stale data. */
  lemma {:induction false} EntryOrigin(self: string, actions: seq<Action>, key: Key) returns (i: nat)
    requires key in After(self, actions).cache && Resolvable(After(self, actions).cache[key])
    ensures Fetches(self, actions, i, key) && actions[i].visit.fetch.Ok?
    ensures HoldsCard(After(self, actions).cache[key], actions[i].visit, actions[i].visit.fetch.value)
    ensures !HardFailureSince(self, actions, i, key)
  {
    var n := |actions| - 1;
    var before, s, a := actions[..n], After(self, actions[..n]), actions[n];
    var entry := Next(self, s, a).cache[key];
    if Visits(self, a, key) {
      EntryAfterVisit(s.cache, s.used, a.visit);
      if !UsesCache(s.cache, a.visit.peer, a.visit.now) && a.visit.fetch.Ok?
         && HoldsCard(entry, a.visit, a.visit.fetch.value) {
        i := n;
      } else {
        i := EntryOrigin(self, before, key);
        SameCardHolds(s.cache[key], entry, before[i].visit, before[i].visit.fetch.value);
        OriginLasts(self, actions, before, i, key);
      }
    } else {
      OtherActionsKeepEntry(self, s, a, key);
      i := EntryOrigin(self, before, key);
      OriginLasts(self, actions, before, i, key);
    }
  }

  /** Every answer comes from a card that was really fetched for this peer, unchanged but for the choice
      of local ports, with no fetch since that forbids stale data; and an answer reported as fresh was
      fetched under the peer's present fingerprint, less than an hour ago or just now. */
  lemma AnswerOrigin(self: string, before: seq<Action>, v: Visit) returns (i: nat)
    requires ScopedTo(v.peer, self)
    requires Resolve(After(self, before).cache, After(self, before).used, v).result.Ok?
    ensures var actions, key := before + [Peer(v)], KeyOf(v.peer);
      Fetches(self, actions, i, key) && actions[i].visit.fetch.Ok? && !HardFailureSince(self, actions, i, key)
    ensures var actions, step := before + [Peer(v)], Resolve(After(self, before).cache, After(self, before).used, v);
      var card, resolved := actions[i].visit.fetch.value, step.result.value;
      && resolved.publicIp == card.publicIp && resolved.references == card.references
      && Remotes(resolved.ports) == SortedUnique(card.ports)
      && step.status.Some? && step.status.value.lastSuccess == Some(actions[i].visit.now)
      && (step.status.value.name == Fresh ==>
            v.now < actions[i].visit.now + CACHE_TTL_MAX && actions[i].visit.peer.fingerprint == v.peer.fingerprint)
  {
    var actions, key, s := before + [Peer(v)], KeyOf(v.peer), After(self, before);
    assert actions[..|before|] == before;
    EntryAfterVisit(s.cache, s.used, v);
    i := EntryOrigin(self, actions, key);
    AnswerStatus(s.cache, s.used, v, actions[i].visit);
  }

  lemma AnswerStatus(cache: Cache, used: set<Port>, v: Visit, origin: Visit)
    requires var step := Resolve(cache, used, v);
      && step.result.Ok? && KeyOf(v.peer) in step.cache && origin.fetch.Ok?
      && HoldsCard(step.cache[KeyOf(v.peer)], origin, origin.fetch.value)
    ensures var status := Resolve(cache, used, v).status;
      && status.Some? && status.value.lastSuccess == Some(origin.now)
      && (status.value.name == Fresh ==>
            v.now < origin.now + CACHE_TTL_MAX && origin.peer.fingerprint == v.peer.fingerprint)
  {
  }

  lemma {:induction false} HardFailureCounts(self: string, actions: seq<Action>, i: nat, h: nat, key: Key)
    requires i < h < |actions| && FailsHard(self, After(self, actions[..h]), actions[h], key)
    ensures HardFailureSince(self, actions, i, key)
  {
    var n := |actions| - 1;
    if h < n {
      assert actions[..n][..h] == actions[..h];
      HardFailureCounts(self, actions[..n], i, h, key);
    }
  }

  lemma OriginIsLater(self: string, actions: seq<Action>, i: nat, h: nat, key: Key)
    requires h < |actions| && FailsHard(self, After(self, actions[..h]), actions[h], key)
    requires Fetches(self, actions, i, key) && actions[i].visit.fetch.Ok? && !HardFailureSince(self, actions, i, key)
    ensures i > h
  {
    if i < h {
      HardFailureCounts(self, actions, i, h, key);
    }
  }

  lemma FetchedBefore(self: string, before: seq<Action>, a: Action, i: nat, key: Key)
    requires i < |before|
    ensures Fetches(self, before + [a], i, key) <==> Fetches(self, before, i, key)
    ensures (before + [a])[..i] == before[..i]
  {
  }

  /** After a fetch that forbids stale data the peer does not resolve until a later fetch succeeds. */
  lemma HardFailureSilences(self: string, before: seq<Action>, h: nat, v: Visit)
    requires ScopedTo(v.peer, self) && h < |before|
    requires FailsHard(self, After(self, before[..h]), before[h], KeyOf(v.peer))
    requires Resolve(After(self, before).cache, After(self, before).used, v).result.Ok?
    ensures || (!UsesCache(After(self, before).cache, v.peer, v.now) && v.fetch.Ok?)
            || exists i :: h < i < |before| && Fetches(self, before, i, KeyOf(v.peer)) && before[i].visit.fetch.Ok?
  {
    var key, actions := KeyOf(v.peer), before + [Peer(v)];
    var i := AnswerOrigin(self, before, v);
    FetchedBefore(self, before, Peer(v), h, key);
    OriginIsLater(self, actions, i, h, key);
    if i < |before| {
      FetchedBefore(self, before, Peer(v), i, key);
    } else {
      assert actions[..i] == before;
    }
  }

  // ---------------------------------------------------------------- how often cards are fetched

  ghost predicate Waiting(cache: Cache, key: Key, fingerprint: string, until: nat) {
    key in cache && cache[key].fingerprint == fingerprint && cache[key].nextRefresh >= until
  }

  lemma FetchSetsWait(cache: Cache, used: set<Port>, v: Visit)
    requires !UsesCache(cache, v.peer, v.now) && Resolve(cache, used, v).result != Err(NoLocalPort)
    ensures Waiting(Resolve(cache, used, v).cache, KeyOf(v.peer), v.peer.fingerprint, v.now + 60)
  {
  }

  lemma ServeKeepsWait(cache: Cache, used: set<Port>, key: Key, entry: CachedPeer, fetched: bool)
    requires Resolvable(entry)
    ensures var after := Serve(cache, used, key, entry, fetched).cache;
      key in after && after[key].fingerprint == entry.fingerprint && after[key].nextRefresh == entry.nextRefresh
  {
  }

  /** While the retry time has not come, a visit leaves it alone. */
  lemma CachedKeepsWait(cache: Cache, used: set<Port>, v: Visit, until: nat)
    requires Waiting(cache, KeyOf(v.peer), v.peer.fingerprint, until) && UsesCache(cache, v.peer, v.now)
    ensures Waiting(Resolve(cache, used, v).cache, KeyOf(v.peer), v.peer.fingerprint, until)
  {
    var key := KeyOf(v.peer);
    if Resolvable(cache[key]) {
      ServeKeepsWait(cache, used, key, cache[key], false);
    }
  }

  /** Once it has come, a fetch sets a later one. */
  lemma FetchKeepsWait(cache: Cache, used: set<Port>, v: Visit, until: nat)
    requires Waiting(cache, KeyOf(v.peer), v.peer.fingerprint, until) && !UsesCache(cache, v.peer, v.now)
    ensures Waiting(Resolve(cache, used, v).cache, KeyOf(v.peer), v.peer.fingerprint, until)
  {
    if Resolve(cache, used, v).result != Err(NoLocalPort) {
      FetchSetsWait(cache, used, v);
    } else if Served(cache, v).Some? {
      ServedAnswers(cache, used, v);
      ServeKeepsWait(cache, used, KeyOf(v.peer), Served(cache, v).value, true);
    }
  }

  lemma VisitKeepsWait(cache: Cache, used: set<Port>, v: Visit, key: Key, until: nat, fingerprint: string)
    requires Waiting(cache, key, fingerprint, until)
    requires KeyOf(v.peer) == key ==> v.peer.fingerprint == fingerprint
    ensures Waiting(Resolve(cache, used, v).cache, key, fingerprint, until)
  {
    if KeyOf(v.peer) != key {
      OtherEntriesStay(cache, used, v, key);
    } else if UsesCache(cache, v.peer, v.now) {
      CachedKeepsWait(cache, used, v, until);
    } else {
      FetchKeepsWait(cache, used, v, until);
    }
  }

  /** The action keeps the peer listed with this fingerprint. */
  ghost predicate Lists(self: string, s: State, a: Action, key: Key, fingerprint: string) {
    match a
    case NoBundle => false
    case Begin(_, _) => true
    case Peer(v) => KeyOf(v.peer) == key && ScopedTo(v.peer, self) ==> v.peer.fingerprint == fingerprint
    case End => key in s.active
  }

  lemma NextKeepsWait(self: string, s: State, a: Action, key: Key, until: nat, fingerprint: string)
    requires Waiting(s.cache, key, fingerprint, until) && Lists(self, s, a, key, fingerprint)
    ensures Waiting(Next(self, s, a).cache, key, fingerprint, until)
  {
    if a.Peer? && ScopedTo(a.visit.peer, self) {
      VisitKeepsWait(s.cache, s.used, a.visit, key, until, fingerprint);
      RecordCaches(s, a.visit.peer, Resolve(s.cache, s.used, a.visit));
    }
  }

  /** Since action `i` the peer has stayed in every bundle with this fingerprint. */
  ghost predicate StaysListed(self: string, actions: seq<Action>, i: nat, key: Key, fingerprint: string) {
    |actions| <= i + 1 ||
    (var n := |actions| - 1;
     && StaysListed(self, actions[..n], i, key, fingerprint)
     && Lists(self, After(self, actions[..n]), actions[n], key, fingerprint))
  }

  lemma {:induction false} FetchDelaysNext(self: string, actions: seq<Action>, i: nat, key: Key)
    requires Fetches(self, actions, i, key) && !Exhausts(self, After(self, actions[..i]), actions[i])
    requires StaysListed(self, actions, i, key, actions[i].visit.peer.fingerprint)
    ensures Waiting(After(self, actions).cache, key, actions[i].visit.peer.fingerprint, actions[i].visit.now + 60)
  {
    var n := |actions| - 1;
    var before, s, a := actions[..n], After(self, actions[..n]), actions[n];
    if i == n {
      FetchSetsWait(s.cache, s.used, a.visit);
      RecordCaches(s, a.visit.peer, Resolve(s.cache, s.used, a.visit));
    } else {
      assert before[..i] == actions[..i] && before[i] == actions[i];
      FetchDelaysNext(self, before, i, key);
      NextKeepsWait(self, s, a, key, actions[i].visit.now + 60, actions[i].visit.peer.fingerprint);
    }
  }

  /** While a peer stays listed with one fingerprint, two fetches of it are at least 60 seconds apart,
      unless the first one found no local port. */
  lemma FetchesAreSpaced(self: string, actions: seq<Action>, i: nat, v: Visit)
    requires ScopedTo(v.peer, self) && Fetches(self, actions, i, KeyOf(v.peer))
    requires !Exhausts(self, After(self, actions[..i]), actions[i])
    requires StaysListed(self, actions, i, KeyOf(v.peer), v.peer.fingerprint)
    requires actions[i].visit.peer.fingerprint == v.peer.fingerprint
    ensures !UsesCache(After(self, actions).cache, v.peer, v.now) ==> v.now >= actions[i].visit.now + 60
  {
    FetchDelaysNext(self, actions, i, KeyOf(v.peer));
  }
}
