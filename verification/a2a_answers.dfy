/**
 When a peer's card is fetched again, which failures a cached answer survives, under which name an answer is
 given and what the status says of it.
 */
module A2aAnswers {
  import opened Results
  import opened Ports
  import opened A2aCache
  import opened A2aRuns

  // ---------------------------------------------------------------- which peers

  /** A sync visits a peer exactly when the peer lists no services or lists this one; any other is as if it
      were not in the bundle. */
  lemma VisitedExactly(self: string, s: State, v: Visit)
    ensures if v.peer.scoped == [] || self in v.peer.scoped then
              Next(self, s, Peer(v)).active == s.active + {KeyOf(v.peer)}
            else Next(self, s, Peer(v)) == s
  {
    RecordCaches(s, v.peer, Resolve(s.cache, s.used, v));
  }

  /** Peers are told apart by their alias, or failing that by their address. */
  lemma KeyIsAliasOrUrl(peer: BundlePeer)
    ensures peer.alias.Some? ==> Some(KeyOf(peer)) == peer.alias
    ensures peer.alias.None? ==> KeyOf(peer) == peer.url
  {
  }

  // ---------------------------------------------------------------- which local port

  /** A remote port gets its own number if that is free, else the least free port from 18000 to 60999, and none
      only if all of these are in use. */
  lemma LocalPortExactly(remote: Port, used: set<Port>)
    ensures remote != 0 && remote !in used ==> LocalFor(remote, used) == Some(remote)
    ensures remote == 0 || remote in used ==>
      match LocalFor(remote, used)
      case Some(p) => 18000 <= p <= 60999 && p !in used && forall q: Port :: 18000 <= q < p ==> q in used
      case None => forall q: Port :: 18000 <= q <= 60999 ==> q in used
  {
  }

  // ---------------------------------------------------------------- when it is fetched again

  /** How long a card may be used: as long as it declares, but at least a minute and at most an hour. */
  ghost predicate UsableFor(declared: nat, seconds: nat) {
    && (declared < 60 ==> seconds == 60)
    && (60 <= declared <= 3600 ==> seconds == declared)
    && (declared > 3600 ==> seconds == 3600)
  }

  lemma TtlIsUsable(declared: nat)
    ensures UsableFor(declared, Ttl(declared))
  {
  }

  /** After a card was fetched, an unchanged peer is not fetched again exactly as long as the card may be used. */
  lemma FetchedCardLasts(cache: Cache, used: set<Port>, v: Visit, again: BundlePeer, later: nat, seconds: nat)
    requires !UsesCache(cache, v.peer, v.now) && v.fetch.Ok? && Resolve(cache, used, v).result.Ok?
    requires KeyOf(again) == KeyOf(v.peer) && UsableFor(v.fetch.value.ttl, seconds)
    ensures UsesCache(Resolve(cache, used, v).cache, again, later)
       <==> again.fingerprint == v.peer.fingerprint && later < v.now + seconds
  {
    TtlIsUsable(v.fetch.value.ttl);
  }

  /** After a failed fetch it is not fetched again for exactly a minute, whatever the failure. */
  lemma FailedFetchWaits(cache: Cache, used: set<Port>, v: Visit, again: BundlePeer, later: nat)
    requires !UsesCache(cache, v.peer, v.now) && v.fetch.Err? && KeyOf(again) == KeyOf(v.peer)
    ensures UsesCache(Resolve(cache, used, v).cache, again, later)
       <==> again.fingerprint == v.peer.fingerprint && later < v.now + 60
  {
    if Served(cache, v).Some? {
      ServedAnswers(cache, used, v);
      ServeKeepsWait(cache, used, KeyOf(v.peer), Served(cache, v).value, true);
    }
  }

  // ---------------------------------------------------------------- which failures it survives

  /** A failed fetch is answered from the cache exactly when the peer has a resolvable entry and the failure was
      one of transport or a server error. */
  lemma StaleAnswersExactly(cache: Cache, used: set<Port>, v: Visit)
    requires !UsesCache(cache, v.peer, v.now) && v.fetch.Err?
    requires Resolve(cache, used, v).result != Err(NoLocalPort)
    ensures Resolve(cache, used, v).result.Ok? <==>
      && KeyOf(v.peer) in cache && Resolvable(cache[KeyOf(v.peer)])
      && (v.fetch.error == Transport || (v.fetch.error.HttpStatus? && v.fetch.error.status >= 500))
  {
  }

  /** Any other failure leaves nothing behind that could be served later. */
  lemma OtherFailureForgets(cache: Cache, used: set<Port>, v: Visit)
    requires !UsesCache(cache, v.peer, v.now) && v.fetch.Err?
    requires v.fetch.error == OtherFailure || (v.fetch.error.HttpStatus? && v.fetch.error.status < 500)
    ensures var key, after := KeyOf(v.peer), Resolve(cache, used, v).cache;
      key in after && !Resolvable(after[key]) && after == cache[key := after[key]]
  {
  }

  // ---------------------------------------------------------------- names and statuses

  /** An answer just fetched goes by the peer's alias, or failing that by the card's own identifier. */
  lemma FetchedName(cache: Cache, used: set<Port>, v: Visit)
    requires !UsesCache(cache, v.peer, v.now) && v.fetch.Ok? && Resolve(cache, used, v).result.Ok?
    ensures Resolve(cache, used, v).result.value.id
         == match v.peer.alias case Some(alias) => alias case None => v.fetch.value.id
  {
  }

  /** The names a fetched card leaves in its entry. */
  lemma StoredName(cache: Cache, used: set<Port>, v: Visit)
    requires !UsesCache(cache, v.peer, v.now) && v.fetch.Ok? && Resolve(cache, used, v).result.Ok?
    ensures var key, step := KeyOf(v.peer), Resolve(cache, used, v);
      key in step.cache && step.cache[key].alias == v.peer.alias && step.cache[key].id == Some(step.result.value.id)
  {
  }

  /** The name an answer from the cache goes by. */
  lemma ServedName(cache: Cache, used: set<Port>, w: Visit)
    requires w.fetch.Err? || UsesCache(cache, w.peer, w.now)
    requires KeyOf(w.peer) in cache && cache[KeyOf(w.peer)].id.Some? && Resolve(cache, used, w).result.Ok?
    ensures var entry := cache[KeyOf(w.peer)];
      var alias := if UsesCache(cache, w.peer, w.now) then entry.alias else w.peer.alias;
      Resolve(cache, used, w).result.value.id == if alias.Some? then alias.value else entry.id.value
  {
    ServedAnswers(cache, used, w);
  }

  /** A later answer from the cache goes by the same name, or by the alias that the peer has been given since. */
  lemma CachedName(cache: Cache, used: set<Port>, v: Visit, used': set<Port>, w: Visit)
    requires !UsesCache(cache, v.peer, v.now) && v.fetch.Ok? && Resolve(cache, used, v).result.Ok?
    requires KeyOf(w.peer) == KeyOf(v.peer) && (w.fetch.Err? || UsesCache(Resolve(cache, used, v).cache, w.peer, w.now))
    requires Resolve(Resolve(cache, used, v).cache, used', w).result.Ok?
    ensures Resolve(Resolve(cache, used, v).cache, used', w).result.value.id
         == if UsesCache(Resolve(cache, used, v).cache, w.peer, w.now) then Resolve(cache, used, v).result.value.id
            else if w.peer.alias.Some? then w.peer.alias.value
            else if v.peer.alias.Some? then v.peer.alias.value
            else v.fetch.value.id
  {
    StoredName(cache, used, v);
    ServedName(Resolve(cache, used, v).cache, used', w);
  }

  /** The status of a peer that resolves: fresh if its card was just fetched or the last fetch of it succeeded,
      stale otherwise, with the ports it is reached at. */
  lemma ResolvedStatus(cache: Cache, used: set<Port>, v: Visit)
    requires Resolve(cache, used, v).result.Ok?
    ensures var step := Resolve(cache, used, v);
      && step.status.Some? && step.status.value.id == Some(step.result.value.id)
      && step.status.value.ports == Locals(step.result.value.ports)
      && (step.status.value.name == Fresh
          <==> if UsesCache(cache, v.peer, v.now) then !cache[KeyOf(v.peer)].failed else v.fetch.Ok?)
      && (step.status.value.name != Fresh ==> step.status.value.name == Stale)
  {
  }

  /** What the last fetch left: a success is remembered as one, a failure as one until the next success. */
  lemma FetchIsRemembered(cache: Cache, used: set<Port>, v: Visit)
    requires !UsesCache(cache, v.peer, v.now) && Resolve(cache, used, v).result != Err(NoLocalPort)
    ensures var key, after := KeyOf(v.peer), Resolve(cache, used, v).cache;
      key in after && (after[key].failed <==> v.fetch.Err?)
  {
  }

  /** Unless ports run out, a peer that does not resolve has status failing and no ports. */
  lemma UnresolvedStatus(cache: Cache, used: set<Port>, v: Visit)
    requires Resolve(cache, used, v).result.Err? && Resolve(cache, used, v).result.error != NoLocalPort
    ensures var step := Resolve(cache, used, v);
      && step.status.Some? && step.status.value.name == Failing && step.status.value.ports == []
      && step.status.value.id == v.peer.alias && step.used == used
      && step.status.value.lastSuccess
         == if !UsesCache(cache, v.peer, v.now) && KeyOf(v.peer) in cache && Resolvable(cache[KeyOf(v.peer)])
            then Some(cache[KeyOf(v.peer)].fetchedAt) else None
  {
  }

  /** A card is fetched exactly when the cached answer may not be used any more. */
  lemma FetchesExactly(cache: Cache, used: set<Port>, v: Visit)
    ensures Resolve(cache, used, v).fetched
       <==> !(KeyOf(v.peer) in cache && cache[KeyOf(v.peer)].fingerprint == v.peer.fingerprint
              && v.now < cache[KeyOf(v.peer)].nextRefresh)
  {
  }

  /** In the daemon's list a visited peer has a status, which is failing unless its answer is published. */
  lemma RecordedStatus(s: State, v: Visit)
    ensures var step, t := Resolve(s.cache, s.used, v), VisitPeer(s, v);
      && KeyOf(v.peer) in t.statuses
      && (Publishes(s, step) ==> Some(t.statuses[KeyOf(v.peer)]) == step.status)
      && (step.result.Err? && step.status.Some? ==> Some(t.statuses[KeyOf(v.peer)]) == step.status)
      && (step.result.Err? && step.status.None? ==>
            t.statuses[KeyOf(v.peer)] == if KeyOf(v.peer) in s.statuses then s.statuses[KeyOf(v.peer)]
                                         else Status(Failing, v.peer.alias, None, []))
      && (step.result.Ok? && !Publishes(s, step) ==>
            t.statuses[KeyOf(v.peer)] == Status(Failing, Some(step.result.value.id), None, []))
      && (forall k :: k != KeyOf(v.peer) ==> (k in t.statuses <==> k in s.statuses))
      && (forall k :: k in s.statuses && k != KeyOf(v.peer) ==> t.statuses[k] == s.statuses[k])
  {
    var step := Resolve(s.cache, s.used, v);
    if step.result.Ok? {
      ResolvedStatus(s.cache, s.used, v);
    }
  }

  /** A sync forgets the peers that it has not visited, and only those. */
  lemma EndKeepsVisited(self: string, s: State, k: Key)
    ensures k in Next(self, s, End).cache <==> k in s.cache && k in s.active
    ensures k in Next(self, s, End).cache ==> Next(self, s, End).cache[k] == s.cache[k]
  {
  }
}
