/**
 Whose endpoints a guest's state file holds: which syncs are admitted, what they leave, and that once
 endpoints have been published they belong to one service for good.
 */
module MeshOwnership {
  import opened Results
  import opened Ports
  import opened MeshSchema
  import opened MeshPlanner
  import opened MeshDurability

  // ---------------------------------------------------------------- one sync

  /** A sync for another service than the present owner, or with a reservation on an own port, leaves memory,
      state file and published assignments as they were. */
  lemma ForeignSyncRefused(w: World, bundle: MeshBundle, serviceId: string, ownPorts: seq<Port>)
    requires || (w.proc.Up? && w.proc.mem.owner.Some? && w.proc.mem.owner.value != serviceId)
             || (w.proc.Up? && exists e :: e in w.proc.mem.registry && w.proc.mem.registry[e] in ownPorts)
    ensures var t := Next(w, BeginSync(bundle, serviceId, ownPorts));
      t.proc == w.proc && t.disk.state == w.disk.state && t.disk.older == w.disk.older && t.published == w.published
  {
  }

  /** A sync for the owner, or on a state without one, that avoids the own ports and whose plan succeeds is
      committed: memory holds the plan's registry in the name of that service, to be persisted and published. */
  lemma AdmittedSyncCommits(w: World, bundle: MeshBundle, serviceId: string, ownPorts: seq<Port>, plan: RoutePlan,
                            after: Registry)
    requires w.proc.Up? && w.proc.pc == Idle
    requires w.proc.mem.owner == None || w.proc.mem.owner == Some(serviceId)
    requires forall e :: e in w.proc.mem.registry ==> w.proc.mem.registry[e] !in ownPorts
    requires Plan(bundle, serviceId, w.proc.mem.registry) == Ok((plan, after))
    ensures Next(w, BeginSync(bundle, serviceId, ownPorts)).proc
         == Up(Saved(Some(serviceId), after), Writing(Endpoints(plan)))
  {
  }

  /** An idle daemon commits a sync exactly then; otherwise its memory stays as it is. */
  lemma SyncCommitsExactly(w: World, bundle: MeshBundle, serviceId: string, ownPorts: seq<Port>)
    requires w.proc.Up? && w.proc.pc == Idle
    ensures Next(w, BeginSync(bundle, serviceId, ownPorts)).proc != w.proc
       <==> && (w.proc.mem.owner == None || w.proc.mem.owner == Some(serviceId))
            && (forall e :: e in w.proc.mem.registry ==> w.proc.mem.registry[e] !in ownPorts)
            && Plan(bundle, serviceId, w.proc.mem.registry).Ok?
  {
  }

  // ---------------------------------------------------------------- who owns the state

  /** The owner that a content of the state file names, if any. */
  function OwnerOf(f: StateFile): Option<string> {
    if f.Stored? then f.saved.owner else None
  }

  /** Contents that the state file has or may turn out to have. */
  ghost predicate OnDisk(d: Disk, f: StateFile) {
    f == d.state || f in d.older
  }

  /** Any two owners on the disk are the same. */
  ghost predicate OneOwner(d: Disk) {
    forall f, g :: OnDisk(d, f) && OnDisk(d, g) && OwnerOf(f).Some? && OwnerOf(g).Some? ==> OwnerOf(f) == OwnerOf(g)
  }

  /** A stored state names the owner of every other content. */
  ghost predicate StateNamesOwner(d: Disk) {
    d.state.Stored? ==> forall f :: OnDisk(d, f) && OwnerOf(f).Some? ==> OwnerOf(d.state) == OwnerOf(f)
  }

  ghost predicate MemoryNamesOwner(w: World) {
    w.proc.Up? ==> forall f :: OnDisk(w.disk, f) && OwnerOf(f).Some? ==> w.proc.mem.owner == OwnerOf(f)
  }

  ghost predicate SomethingStored(d: Disk) {
    exists f :: OnDisk(d, f) && f.Stored?
  }

  /** Whatever holds a state has a durable marker; only a first write may run without one. */
  ghost predicate StoredIsMarked(w: World) {
    && (SomethingStored(w.disk) ==> MarkerStays(w.disk))
    && (w.proc.Up? ==> MarkerStays(w.disk) || FirstWrite(w.proc.pc))
    && (w.proc.Up? && w.proc.pc.Writing? && w.proc.pc.purpose.Initialize? ==> w.disk.marker.NoMarker?)
  }

  ghost predicate FirstWrite(pc: Pc) {
    (pc.Writing? || pc.MarkCreated? || pc.MarkWritten?) && pc.purpose.Initialize?
  }

  /** Endpoints are planned in the name of a service. */
  ghost predicate PlannedOwned(w: World) {
    w.proc.Up? && w.proc.pc != Idle && w.proc.pc.purpose.Endpoints? ==> w.proc.mem.owner.Some?
  }

  ghost predicate OwnerInv(w: World) {
    && OneOwner(w.disk) && StateNamesOwner(w.disk) && MemoryNamesOwner(w) && StoredIsMarked(w) && PlannedOwned(w)
  }

  // ---------------------------------------------------------------- one action

  /** A new content of the state file joins the others. */
  lemma Stores(d: Disk, mem: Saved)
    requires forall f :: OnDisk(d, f) && OwnerOf(f).Some? ==> mem.owner == OwnerOf(f)
    ensures var t := d.(state := Stored(mem), older := d.older + {d.state}); OneOwner(t) && StateNamesOwner(t)
    ensures forall f :: OnDisk(d.(state := Stored(mem), older := d.older + {d.state}), f) && OwnerOf(f).Some? ==>
      mem.owner == OwnerOf(f)
  {
    var t := d.(state := Stored(mem), older := d.older + {d.state});
    forall f | OnDisk(t, f) ensures f == Stored(mem) || OnDisk(d, f) {
    }
  }

  lemma RenameKeepsOwner(w: World)
    requires OwnerInv(w)
    ensures OwnerInv(Next(w, Rename))
  {
    var t := Next(w, Rename);
    if t != w {
      Stores(w.disk, w.proc.mem);
      assert MarkerStays(w.disk);
    }
  }

  /** Fewer contents, fewer owners. */
  lemma FewerFiles(d: Disk, t: Disk)
    requires OneOwner(d) && forall f :: OnDisk(t, f) && OwnerOf(f).Some? ==> OnDisk(d, f)
    ensures OneOwner(t)
  {
  }

  lemma DeleteKeepsOwner(w: World)
    requires OwnerInv(w)
    ensures OwnerInv(Next(w, DeleteState))
  {
    var t := Next(w, DeleteState);
    forall f | OnDisk(t.disk, f) && f.Stored? ensures OnDisk(w.disk, f) {
    }
    FewerFiles(w.disk, t.disk);
    if SomethingStored(t.disk) {
      var f :| OnDisk(t.disk, f) && f.Stored?;
      assert OnDisk(w.disk, f);
    }
  }

  lemma CrashKeepsOwner(w: World, state: StateFile, marker: Marker, outputs: bool)
    requires OwnerInv(w) && CrashLeaves(w.disk, state, marker, outputs)
    ensures OwnerInv(Next(w, Crash(state, marker, outputs)))
  {
    var t := Next(w, Crash(state, marker, outputs));
    assert state.Stored? ==> OnDisk(w.disk, state);
    assert forall f :: OnDisk(t.disk, f) <==> f == state;
  }

  lemma StartKeepsOwner(w: World)
    requires OwnerInv(w)
    ensures OwnerInv(Next(w, Start))
  {
    if w.proc.Down? && Begin(w.disk).Fresh? {
      assert !SomethingStored(w.disk);
      forall f | OnDisk(w.disk, f) ensures OwnerOf(f).None? {
      }
    } else if w.proc.Down? && w.disk.state.Stored? {
      assert OnDisk(w.disk, w.disk.state) && SomethingStored(w.disk);
    }
  }

  lemma SyncedKeepsOwner(w: World)
    requires OwnerInv(w)
    ensures OwnerInv(Next(w, SyncState))
  {
    var t := Next(w, SyncState);
    if t != w {
      forall f | OnDisk(t.disk, f) ensures OnDisk(w.disk, f) {
      }
      FewerFiles(w.disk, t.disk);
    }
  }

  /** The files stay as they are. */
  ghost predicate SameFiles(d: Disk, t: Disk) {
    d.state == t.state && d.older == t.older
  }

  lemma SameFilesSameOwner(d: Disk, t: Disk)
    requires SameFiles(d, t)
    ensures OneOwner(d) ==> OneOwner(t)
    ensures StateNamesOwner(d) ==> StateNamesOwner(t)
    ensures SomethingStored(t) <==> SomethingStored(d)
    ensures forall f :: OnDisk(t, f) <==> OnDisk(d, f)
  {
    assert forall f :: OnDisk(t, f) <==> OnDisk(d, f);
  }

  lemma OtherKeepsOwner(w: World, a: Action)
    requires OwnerInv(w) && Inv(w)
    requires !(a.Start? || a.Rename? || a.SyncState? || a.DeleteState? || a.Crash? || a.Restore?)
    ensures OwnerInv(Next(w, a))
  {
    SameFilesSameOwner(w.disk, Next(w, a).disk);
  }

  lemma NextKeepsOwner(w: World, a: Action)
    requires OwnerInv(w) && Inv(w) && !a.Restore?
    ensures OwnerInv(Next(w, a))
  {
    match a
    case Start => StartKeepsOwner(w);
    case Rename => RenameKeepsOwner(w);
    case SyncState => SyncedKeepsOwner(w);
    case DeleteState => DeleteKeepsOwner(w);
    case Crash(state, marker, outputs) =>
      if CrashLeaves(w.disk, state, marker, outputs) {
        CrashKeepsOwner(w, state, marker, outputs);
      }
    case _ => OtherKeepsOwner(w, a);
  }

  // ---------------------------------------------------------------- histories

  ghost predicate NoRestore(actions: seq<Action>) {
    forall i :: 0 <= i < |actions| ==> !actions[i].Restore?
  }

  /** In every history without a restore all owners that memory, state file and its earlier contents name are
      the same, and memory and a stored state name the owner of every other content. */
  lemma {:induction false} OneOwnerAlways(actions: seq<Action>)
    requires NoRestore(actions)
    ensures OwnerInv(After(actions))
    decreases |actions|
  {
    if actions != [] {
      var n := |actions| - 1;
      OneOwnerAlways(actions[..n]);
      HistoryKeepsInv(actions[..n]);
      NextKeepsOwner(After(actions[..n]), actions[n]);
    }
  }

  // ---------------------------------------------------------------- published endpoints have one owner

  /** Every content that the state file has or may turn out to have, and memory, name this owner. */
  ghost predicate OwnedBy(w: World, owner: string) {
    && (forall f :: OnDisk(w.disk, f) && f.Stored? ==> OwnerOf(f) == Some(owner))
    && (w.proc.Up? ==> w.proc.mem.owner == Some(owner))
  }

  ghost predicate Owned(w: World) {
    w.published != {} ==> exists owner :: OwnedBy(w, owner)
  }

  /** From then on no action but a restore changes that. */
  lemma NextStaysOwned(w: World, a: Action, owner: string)
    requires Inv(w) && w.published != {} && OwnedBy(w, owner) && !a.Restore?
    ensures OwnedBy(Next(w, a), owner)
  {
    match a
    case Rename =>
      forall f | OnDisk(Next(w, a).disk, f) ensures OnDisk(w.disk, f) || (w.proc.Up? && f == Stored(w.proc.mem)) {
      }
    case Start =>
      assert OnDisk(w.disk, w.disk.state);
    case DeleteState =>
      forall f | OnDisk(Next(w, a).disk, f) && f.Stored? ensures OnDisk(w.disk, f) {
      }
    case Crash(state, marker, outputs) =>
      assert CrashLeaves(w.disk, state, marker, outputs) && state.Stored? ==> OnDisk(w.disk, state);
    case Restore(_) =>
    case _ =>
      forall f | OnDisk(Next(w, a).disk, f) ensures OnDisk(w.disk, f) {
      }
  }

  /** The first publication happens when memory, and every content of the state file, is the published one. */
  lemma PublishOwns(w: World)
    requires Inv(w) && PlannedOwned(w) && w.published == {} && Next(w, Publish).published != {}
    ensures OwnedBy(Next(w, Publish), w.proc.mem.owner.value)
  {
    var t := Next(w, Publish);
    forall f | OnDisk(t.disk, f) && f.Stored? ensures f.saved == w.proc.mem {
      assert OnDisk(w.disk, f);
    }
  }

  /** In every history without a restore, as soon as an endpoint has been published, memory and every content
      that the state file has or may turn out to have belong to one service. */
  lemma {:induction false} PublishedIsOwned(actions: seq<Action>)
    requires NoRestore(actions)
    ensures Owned(After(actions))
    decreases |actions|
  {
    if actions != [] {
      var n := |actions| - 1;
      var w, a := After(actions[..n]), actions[n];
      PublishedIsOwned(actions[..n]);
      HistoryKeepsInv(actions[..n]);
      OneOwnerAlways(actions[..n]);
      if w.published != {} {
        var owner :| OwnedBy(w, owner);
        NextStaysOwned(w, a, owner);
      } else if Next(w, a).published != {} {
        PublishOwns(w);
      }
    }
  }

  /** And for good: that service stays the owner however the history goes on, so no sync for another one is
      ever admitted. */
  lemma {:induction false} OwnerIsForever(actions: seq<Action>, k: nat, owner: string)
    requires NoRestore(actions) && k <= |actions|
    requires After(actions[..k]).published != {} && OwnedBy(After(actions[..k]), owner)
    ensures OwnedBy(After(actions), owner)
    decreases |actions|
  {
    if k == |actions| {
      assert actions[..k] == actions;
    } else {
      var n := |actions| - 1;
      assert actions[..n][..k] == actions[..k];
      OwnerIsForever(actions[..n], k, owner);
      HistoryKeepsInv(actions[..n]);
      PublishedOnlyGrows(actions[..n], k);
      NextStaysOwned(After(actions[..n]), actions[n], owner);
    }
  }

  /** A restore that holds the published assignments may name any owner, so the histories cannot have one. */
  lemma RestoreSetsAnyOwner(w: World, saved: Saved, owner: Option<string>)
    requires w.proc.Down? && !w.disk.state.Stored? && Holds(saved.registry, w.published)
    ensures Next(w, Restore(saved.(owner := owner))).disk.state == Stored(saved.(owner := owner))
  {
  }

  /** A daemon never starts over while its directory, its cached bundle or a marker says that it ran before. */
  lemma NeverStartsOver(w: World)
    requires w.disk.state.Missing? && (w.disk.outputs || !w.disk.marker.NoMarker?)
    ensures Next(w, Start) == w
  {
  }

  /** From a stored state with a sound marker it starts with exactly that state. */
  lemma StartsWithStored(w: World, saved: Saved)
    requires w.proc.Down? && w.disk.state == Stored(saved) && w.disk.marker.GoodMarker?
    ensures Next(w, Start) == w.(proc := Up(saved, Idle))
  {
  }

  /** Any sync caches its bundle first, so from then on a guest that loses its state does not start over. */
  lemma SyncLeavesTrace(w: World, bundle: MeshBundle, serviceId: string, ownPorts: seq<Port>)
    requires w.proc.Up? && w.proc.pc == Idle
    ensures Next(w, BeginSync(bundle, serviceId, ownPorts)).disk == w.disk.(outputs := true)
  {
  }

  /** What a crash leaves is durable: another one changes neither state file nor marker. */
  lemma CrashSettles(w: World, state: StateFile, marker: Marker, outputs: bool, again: Action)
    requires CrashLeaves(w.disk, state, marker, outputs) && again.Crash?
    ensures var t := Next(w, Crash(state, marker, outputs));
      Next(t, again).disk.state == t.disk.state && Next(t, again).disk.marker == t.disk.marker
  {
  }

  /** A crash may bring back or tear what has not been synced: an earlier state file, a torn one, a marker
      without its contents, no marker at all, and the loss of the published files. */
  lemma CrashMay(d: Disk, earlier: StateFile)
    ensures CrashLeaves(d, d.state, d.marker, d.outputs) && CrashLeaves(d, d.state, d.marker, false)
    ensures earlier in d.older ==> CrashLeaves(d, earlier, d.marker, d.outputs) && CrashLeaves(d, Torn, d.marker, false)
    ensures !d.dataSynced && !d.marker.NoMarker? ==> CrashLeaves(d, d.state, TornMarker, d.outputs)
    ensures !d.entrySynced ==> CrashLeaves(d, d.state, NoMarker, d.outputs)
    ensures d.older == {} && d.dataSynced && d.entrySynced ==>
      forall state, marker, outputs :: CrashLeaves(d, state, marker, outputs) ==> state == d.state && marker == d.marker
  {
  }
}
