/**
 Durable endpoint identity: the daemon's state file, its initialization marker, and every order in
 which planning, persisting, publishing, crashes, restarts and deletion of the state file can
 happen.

 A history is any sequence of actions; an action that is not enabled leaves the world unchanged.
 A rename or file creation that has not been synced may be undone or torn by a crash.
 */
module MeshDurability {
  import opened Results
  import opened Ports
  import opened MeshSchema
  import opened MeshPlanner
  import opened MeshPlanSafety

  /** The part of the daemon state that names endpoints. */
  datatype Saved = Saved(owner: Option<string>, registry: Registry)

  datatype StateFile = Missing | Torn | Stored(saved: Saved)

  datatype Marker = NoMarker | TornMarker | GoodMarker

  /**
   `older` are the earlier contents of the state file that a crash may still bring back.
   `entrySynced` and `dataSynced` say whether the marker's directory entry and contents are durable.
   `outputs` says that the service directory or the cached bundle exists.
   */
  datatype Disk = Disk(
    state: StateFile, older: set<StateFile>,
    marker: Marker, entrySynced: bool, dataSynced: bool,
    outputs: bool)

  /** Why the state is being written (or, for `Upgrade`, only marked). */
  datatype Purpose = Initialize | Upgrade | LoopEnd | Endpoints(plan: RoutePlan)

  datatype Pc =
    | Idle
    | Writing(purpose: Purpose)
    | MarkCreated(purpose: Purpose)
    | MarkWritten(purpose: Purpose)
    | Marked(purpose: Purpose)
    | Renamed(purpose: Purpose)
    | Durable(purpose: Purpose)

  datatype Proc = Down | Up(mem: Saved, pc: Pc)

  datatype Assignment = Assignment(endpoint: Endpoint, port: Port)

  /** `published` is history: every assignment ever written to the service directory. */
  datatype World = World(disk: Disk, proc: Proc, published: set<Assignment>)

  datatype Action =
    | Start
    | BeginSync(bundle: MeshBundle, serviceId: string, ownPorts: seq<Port>)
    | BeginSave
    | CreateMarker
    | FillMarker
    | SyncMarker
    | MarkerPresent
    | Rename
    | SyncState
    | Publish
    | Finish
    | Fail
    /** The process ends, however it does; nothing becomes durable by that. */
    | Kill
    | Crash(state: StateFile, marker: Marker, outputs: bool)
    | DeleteState
    | Restore(saved: Saved)

  // ---------------------------------------------------------------- reading the state back

  datatype StartOutcome = Proceed(saved: Saved) | NeedsMarker(saved: Saved) | Fresh | Refuse

  /** `read_daemon_state`, up to its own writes. */
  function Begin(d: Disk): StartOutcome {
    match d.state
    case Stored(v) =>
      if d.marker.GoodMarker? then Proceed(v) else if d.marker.NoMarker? then NeedsMarker(v) else Refuse
    case Torn => Refuse
    case Missing => if d.marker.NoMarker? && !d.outputs then Fresh else Refuse
  }

  const DEFAULT_STATE := Saved(None, map[])

  /** `validate_mesh_client_reservations`. */
  predicate ReservationsAdmit(saved: Saved, serviceId: string, ownPorts: seq<Port>) {
    && (saved.owner.Some? ==> saved.owner.value == serviceId)
    && forall e :: e in saved.registry ==> saved.registry[e] !in ownPorts
  }

  function Assignments(plan: RoutePlan): set<Assignment> {
    set r | r in plan.peerRoutes :: Assignment(Endpoint(r.service, r.remote), r.local)
  }

  // ---------------------------------------------------------------- one action

  function Goto(w: World, pc: Pc): World
    requires w.proc.Up?
  {
    w.(proc := w.proc.(pc := pc))
  }

  ghost function BeginSyncStep(w: World, bundle: MeshBundle, serviceId: string, ownPorts: seq<Port>): World
    requires w.proc.Up?
  {
    var cached := w.(disk := w.disk.(outputs := true));
    if !ReservationsAdmit(w.proc.mem, serviceId, ownPorts) then cached
    else
      match Plan(bundle, serviceId, w.proc.mem.registry)
      case Err(_) => cached
      case Ok((plan, registry)) =>
        cached.(proc := Up(Saved(Some(serviceId), registry), Writing(Endpoints(plan))))
  }

  /** What a crash may leave behind. */
  ghost predicate CrashLeaves(d: Disk, state: StateFile, marker: Marker, outputs: bool) {
    && (state == d.state || state in d.older || (d.older != {} && state.Torn?))
    && (marker == d.marker
        || (!d.dataSynced && marker.TornMarker? && !d.marker.NoMarker?)
        || (!d.entrySynced && marker.NoMarker?))
    && (outputs ==> d.outputs)
  }

  ghost function Next(w: World, a: Action): World {
    var d := w.disk;
    match a
    case Start =>
      if !w.proc.Down? then w else
      (match Begin(d)
       case Proceed(v) => w.(proc := Up(v, Idle))
       case NeedsMarker(v) => w.(proc := Up(v, Writing(Upgrade)))
       case Fresh => w.(proc := Up(DEFAULT_STATE, Writing(Initialize)))
       case Refuse => w)
    case BeginSync(bundle, serviceId, ownPorts) =>
      if w.proc.Up? && w.proc.pc == Idle then BeginSyncStep(w, bundle, serviceId, ownPorts) else w
    case BeginSave =>
      if w.proc.Up? && w.proc.pc == Idle then Goto(w, Writing(LoopEnd)) else w
    case CreateMarker =>
      if w.proc.Up? && w.proc.pc.Writing? && d.marker.NoMarker? then
        Goto(w, MarkCreated(w.proc.pc.purpose)).(
          disk := d.(marker := TornMarker, entrySynced := false, dataSynced := false))
      else w
    case FillMarker =>
      if w.proc.Up? && w.proc.pc.MarkCreated? then
        Goto(w, MarkWritten(w.proc.pc.purpose)).(disk := d.(marker := GoodMarker))
      else w
    case SyncMarker =>
      if w.proc.Up? && w.proc.pc.MarkWritten? then
        Goto(w, Marked(w.proc.pc.purpose)).(disk := d.(entrySynced := true, dataSynced := true))
      else w
    case MarkerPresent =>
      if w.proc.Up? && w.proc.pc.Writing? && d.marker.GoodMarker? then Goto(w, Marked(w.proc.pc.purpose)) else w
    case Rename =>
      if w.proc.Up? && w.proc.pc.Marked? && !w.proc.pc.purpose.Upgrade? then
        Goto(w, Renamed(w.proc.pc.purpose)).(disk := d.(state := Stored(w.proc.mem), older := d.older + {d.state}))
      else w
    case SyncState =>
      if w.proc.Up? && w.proc.pc.Renamed? && !d.state.Missing? then
        Goto(w, Durable(w.proc.pc.purpose)).(disk := d.(older := {}, entrySynced := true))
      else w
    case Publish =>
      if w.proc.Up? && w.proc.pc.Durable? && w.proc.pc.purpose.Endpoints? then
        Goto(w, Idle).(disk := d.(outputs := true),
                       published := w.published + Assignments(w.proc.pc.purpose.plan))
      else w
    case Finish =>
      if w.proc.Up? && ((w.proc.pc.Durable? && !w.proc.pc.purpose.Endpoints?) || w.proc.pc == Marked(Upgrade)) then
        Goto(w, Idle)
      else w
    case Fail =>
      if !w.proc.Up? || w.proc.pc == Idle then w
      else if w.proc.pc.purpose.Initialize? || w.proc.pc.purpose.Upgrade? then w.(proc := Down)
      else Goto(w, Idle)
    case Kill => w.(proc := Down)
    case Crash(state, marker, outputs) =>
      if CrashLeaves(d, state, marker, outputs) then
        w.(proc := Down, disk := Disk(state, {}, marker, true, true, outputs))
      else w
    case DeleteState => w.(disk := d.(state := Missing, older := d.older + {d.state}))
    case Restore(saved) =>
      // Only the latest state is a legitimate restore: one holding every published assignment.
      if w.proc.Down? && !d.state.Stored? && Holds(saved.registry, w.published) then
        w.(disk := d.(state := Stored(saved), older := {}))
      else w
  }

  ghost function After(actions: seq<Action>): World {
    if actions == [] then World(Disk(Missing, {}, NoMarker, true, true, false), Down, {})
    else Next(After(actions[..|actions| - 1]), actions[|actions| - 1])
  }

  // ---------------------------------------------------------------- the invariant

  ghost predicate Holds(registry: Registry, published: set<Assignment>) {
    forall a :: a in published ==> a.endpoint in registry && registry[a.endpoint] == a.port
  }

  /** Every content the state file may turn out to have holds all published assignments. */
  ghost predicate DiskHolds(d: Disk, published: set<Assignment>) {
    && (d.state.Stored? ==> Holds(d.state.saved.registry, published))
    && forall f :: f in d.older && f.Stored? ==> Holds(f.saved.registry, published)
  }

  ghost predicate MarkerStays(d: Disk) {
    !d.marker.NoMarker? && d.entrySynced
  }

  ghost predicate PlanHeld(p: Purpose, registry: Registry) {
    p.Endpoints? ==> Injective(registry) && Holds(registry, Assignments(p.plan))
  }

  ghost predicate PcInv(d: Disk, mem: Saved, pc: Pc) {
    && (pc != Idle ==> PlanHeld(pc.purpose, mem.registry))
    && (pc != Idle && !pc.Writing? ==> !d.marker.NoMarker?)
    && (pc.Renamed? ==> d.state == Stored(mem) || d.state.Missing?)
    && (pc.Durable? ==>
          && MarkerStays(d)
          && (d.state.Stored? ==> d.state.saved == mem)
          && forall f :: f in d.older && f.Stored? ==> f.saved == mem)
  }

  /** No port was ever published for two endpoints, and no endpoint with two ports. */
  ghost predicate IdentityKept(published: set<Assignment>) {
    forall a, b :: a in published && b in published ==> (a.port == b.port <==> a.endpoint == b.endpoint)
  }

  ghost predicate Inv(w: World) {
    && DiskHolds(w.disk, w.published)
    && (w.published != {} ==> MarkerStays(w.disk))
    && (w.proc.Up? ==> Holds(w.proc.mem.registry, w.published) && PcInv(w.disk, w.proc.mem, w.proc.pc))
    && IdentityKept(w.published)
  }

  lemma PlanHolds(bundle: MeshBundle, serviceId: string, registry: Registry)
    requires Plan(bundle, serviceId, registry).Ok?
    ensures var (plan, after) := Plan(bundle, serviceId, registry).value;
      Extends(registry, after) && PlanHeld(Endpoints(plan), after)
  {
    NewPortsAvoidReservations(bundle, serviceId, registry);
  }

  lemma BeginSyncKeepsInv(w: World, bundle: MeshBundle, serviceId: string, ownPorts: seq<Port>)
    requires Inv(w) && w.proc.Up? && w.proc.pc == Idle
    ensures Inv(BeginSyncStep(w, bundle, serviceId, ownPorts))
  {
    if Plan(bundle, serviceId, w.proc.mem.registry).Ok? {
      PlanHolds(bundle, serviceId, w.proc.mem.registry);
    }
  }

  lemma PublishKeepsInv(w: World)
    requires Inv(w) && w.proc.Up? && w.proc.pc.Durable? && w.proc.pc.purpose.Endpoints?
    ensures Inv(Next(w, Publish))
  {
    var registry := w.proc.mem.registry;
    var published := w.published + Assignments(w.proc.pc.purpose.plan);
    assert Holds(registry, published);
  }

  lemma ActionKeepsInv(w: World, a: Action)
    requires Inv(w)
    ensures Inv(Next(w, a))
  {
    match a
    case BeginSync(bundle, serviceId, ownPorts) =>
      if w.proc.Up? && w.proc.pc == Idle {
        BeginSyncKeepsInv(w, bundle, serviceId, ownPorts);
      }
    case Publish =>
      if w.proc.Up? && w.proc.pc.Durable? && w.proc.pc.purpose.Endpoints? {
        PublishKeepsInv(w);
      }
    case _ =>
  }

  lemma {:induction false} HistoryKeepsInv(actions: seq<Action>)
    ensures Inv(After(actions))
  {
    if actions != [] {
      var n := |actions| - 1;
      HistoryKeepsInv(actions[..n]);
      ActionKeepsInv(After(actions[..n]), actions[n]);
    }
  }

  lemma {:induction false} PublishedOnlyGrows(actions: seq<Action>, k: nat)
    requires k <= |actions|
    ensures After(actions[..k]).published <= After(actions).published
  {
    if k == |actions| {
      assert actions[..k] == actions;
    } else {
      var n := |actions| - 1;
      assert actions[..n][..k] == actions[..k];
      PublishedOnlyGrows(actions[..n], k);
    }
  }

  // ---------------------------------------------------------------- the theorems

  /**
   Over every history, a local port published at any moment for one remote endpoint is never
   published - then, earlier or later - for another.
   */
  lemma EndpointIdentityIsDurable(actions: seq<Action>, i: nat, j: nat, a: Assignment, b: Assignment)
    requires i <= |actions| && j <= |actions|
    requires a in After(actions[..i]).published && b in After(actions[..j]).published
    ensures a.port == b.port <==> a.endpoint == b.endpoint
  {
    HistoryKeepsInv(actions);
    PublishedOnlyGrows(actions, i);
    PublishedOnlyGrows(actions, j);
  }

  /**
   Once anything has been published the daemon fails closed: whenever it is running its registry
   holds every published assignment, and it starts only from a state file that does - never from a
   missing or torn one.
   */
  lemma InitializedGuestFailsClosed(actions: seq<Action>)
    ensures var w := After(actions);
      w.published != {} ==>
        && (w.proc.Up? ==> w.proc.mem.registry != map[] && Holds(w.proc.mem.registry, w.published))
        && !Begin(w.disk).Fresh?
        && (!Begin(w.disk).Refuse? <==> w.disk.state.Stored? && w.disk.marker.GoodMarker?)
        && (w.disk.state.Stored? ==> Holds(w.disk.state.saved.registry, w.published))
  {
    HistoryKeepsInv(actions);
    var w := After(actions);
    if w.published != {} {
      var a :| a in w.published;
      assert w.proc.Up? ==> a.endpoint in w.proc.mem.registry;
    }
  }

  lemma NextKeepsMarker(w: World, a: Action)
    requires MarkerStays(w.disk)
    ensures MarkerStays(Next(w, a).disk)
  {
  }

  /** Once the marker is durable no later action loses it, so a missing or torn state file is refused
      for ever after: the daemon never again starts from an empty registry. */
  lemma {:induction false} InitializationIsForever(actions: seq<Action>, k: nat)
    requires k <= |actions| && MarkerStays(After(actions[..k]).disk)
    ensures MarkerStays(After(actions).disk)
    ensures !After(actions).disk.state.Stored? ==> Begin(After(actions).disk).Refuse?
  {
    if k == |actions| {
      assert actions[..k] == actions;
    } else {
      var n := |actions| - 1;
      assert actions[..n][..k] == actions[..k];
      InitializationIsForever(actions[..n], k);
      NextKeepsMarker(After(actions[..n]), actions[n]);
    }
  }

  /** The daemon is down and its marker torn, with a directory entry that no power loss undoes. */
  ghost predicate TornDown(w: World) {
    w.proc.Down? && w.disk.marker.TornMarker? && w.disk.entrySynced
  }

  /** A crash right after the marker's creation can lead there on a guest that has never published. */
  lemma CrashCanTearMarker()
    ensures TornDown(After([Start, CreateMarker, Crash(Missing, TornMarker, false)]))
  {
    var actions := [Start, CreateMarker, Crash(Missing, TornMarker, false)];
    assert actions[..|actions| - 1] == [Start, CreateMarker] && [Start, CreateMarker][..1] == [Start];
    assert [Start][..0] == [];
    assert After([Start]).proc == Up(DEFAULT_STATE, Writing(Initialize));
    assert After([Start, CreateMarker]).disk.marker == TornMarker;
  }

  /** So can a failed write of its contents and a power loss that keeps the entry. Before the power loss
      the next start is refused already, but a power loss may also undo the marker. */
  lemma FailedWriteTearsMarker()
    ensures var failed := [Start, CreateMarker, Fail];
      && After(failed).proc.Down? && After(failed).disk.marker.TornMarker? && !After(failed).disk.entrySynced
      && Begin(After(failed).disk).Refuse?
      && TornDown(After(failed + [Crash(Missing, TornMarker, false)]))
  {
    var failed := [Start, CreateMarker, Fail];
    assert failed[..|failed| - 1] == [Start, CreateMarker] && [Start, CreateMarker][..1] == [Start];
    assert [Start][..0] == [];
    assert After([Start]).proc == Up(DEFAULT_STATE, Writing(Initialize));
    assert After([Start, CreateMarker]).disk.marker == TornMarker;
    AfterSnoc(failed, Crash(Missing, TornMarker, false));
  }

  /** From then on every start is refused and nothing is ever published. */
  lemma {:induction false} TornMarkerRefuses(actions: seq<Action>, k: nat)
    requires k <= |actions| && TornDown(After(actions[..k]))
    ensures TornDown(After(actions)) && Begin(After(actions).disk).Refuse?
    ensures After(actions).published == After(actions[..k]).published
  {
    if k == |actions| {
      assert actions[..k] == actions;
    } else {
      var n := |actions| - 1;
      assert actions[..n][..k] == actions[..k];
      TornMarkerRefuses(actions[..n], k);
    }
  }

  ghost function Named(published: set<Assignment>): set<Endpoint> {
    set a | a in published :: a.endpoint
  }

  /** A registry with every published assignment. */
  ghost function RegistryOf(published: set<Assignment>): Registry {
    map e | e in Named(published) :: PortOf(published, e)
  }

  ghost function PortOf(published: set<Assignment>, e: Endpoint): Port
    requires e in Named(published)
  {
    var a :| a in published && a.endpoint == e;
    a.port
  }

  lemma RegistryOfHolds(published: set<Assignment>)
    requires IdentityKept(published)
    ensures Holds(RegistryOf(published), published)
  {
  }

  /** A power loss may undo a marker whose entry is not durable. */
  lemma LoseMarker(actions: seq<Action>) returns (more: seq<Action>)
    requires After(actions).proc.Down? && !TornDown(After(actions))
    ensures var w, u := After(actions), After(actions + more);
      u.proc.Down? && !u.disk.marker.TornMarker? && u.published == w.published
  {
    var w := After(actions);
    if w.disk.marker.TornMarker? {
      more := [Crash(w.disk.state, NoMarker, false)];
      AfterSnoc(actions, more[0]);
    } else {
      more := [];
      assert actions + [] == actions;
    }
  }

  /** A saved state that holds every published assignment may be restored. */
  lemma RestoreState(actions: seq<Action>) returns (more: seq<Action>)
    requires After(actions).proc.Down? && !After(actions).disk.marker.TornMarker?
    ensures var u := After(actions + more);
      u.proc.Down? && !u.disk.marker.TornMarker? && u.disk.state.Stored?
  {
    var w := After(actions);
    if w.disk.state.Stored? {
      more := [];
      assert actions + [] == actions;
    } else {
      HistoryKeepsInv(actions);
      RegistryOfHolds(w.published);
      more := [Restore(Saved(None, RegistryOf(w.published)))];
      AfterSnoc(actions, more[0]);
    }
  }

  /** A daemon that is down and whose marker is not both torn and durable can be brought back. */
  lemma CanStartAgain(actions: seq<Action>) returns (more: seq<Action>)
    requires After(actions).proc.Down? && !TornDown(After(actions))
    ensures After(actions + more).proc.Up?
  {
    var lost := LoseMarker(actions);
    var restored := RestoreState(actions + lost);
    AfterSnoc(actions + lost + restored, Start);
    more := lost + restored + [Start];
    assert actions + more == actions + lost + restored + [Start];
  }

  ghost predicate DownAfter(actions: seq<Action>, more: seq<Action>) {
    After(actions + more).proc.Down?
  }

  /** A daemon that is down stays down for ever, whatever is restarted, restored or deleted, exactly when
      its marker is torn with a durable directory entry; no step of the daemon replaces a marker. */
  lemma RefusedForEverExactly(actions: seq<Action>)
    requires After(actions).proc.Down?
    ensures (forall more :: DownAfter(actions, more)) <==> TornDown(After(actions))
  {
    if TornDown(After(actions)) {
      forall more ensures DownAfter(actions, more) {
        assert (actions + more)[..|actions|] == actions;
        TornMarkerRefuses(actions + more, |actions|);
      }
    } else {
      var more := CanStartAgain(actions);
      assert !DownAfter(actions, more);
    }
  }

  // ---------------------------------------------------------------- the daemon's own code

  lemma AfterSnoc(actions: seq<Action>, a: Action)
    ensures After(actions + [a]) == Next(After(actions), a)
  {
    assert (actions + [a])[..|actions|] == actions;
  }

  /** The daemon's code, which may be running or not. `actions` is the history it has produced. */
  class Guest {
    var disk: Disk
    var up: bool
    var mem: Saved
    ghost var pc: Pc
    ghost var published: set<Assignment>
    ghost var actions: seq<Action>

    ghost predicate Valid()
      reads this
    {
      After(actions) == World(disk, if up then Up(mem, pc) else Down, published)
    }

    /** The daemon is writing its state for this purpose. */
    ghost predicate WritingFor(purpose: Purpose)
      reads this
    {
      Valid() && up && pc == Writing(purpose)
    }

    /** After a failure the daemon is idle again, but not running if it was starting. */
    ghost predicate GaveUp(purpose: Purpose)
      reads this
    {
      Valid() && up == !(purpose.Initialize? || purpose.Upgrade?) && (up ==> pc == Idle)
    }

    constructor ()
      ensures Valid() && !up && actions == [] && published == {}
    {
      disk, up, mem := Disk(Missing, {}, NoMarker, true, true, false), false, DEFAULT_STATE;
      pc, published, actions := Idle, {}, [];
    }

    /** One action of the running daemon, with the disk and program counter it leads to. */
    method Act(ghost a: Action, disk': Disk, ghost pc': Pc)
      requires Valid() && up
      requires Next(World(disk, Up(mem, pc), published), a) == World(disk', Up(mem, pc'), published)
      modifies this`disk, this`pc, this`actions
      ensures Valid() && disk == disk' && pc == pc' && old(actions) <= actions
    {
      AfterSnoc(actions, a);
      disk := disk';
      pc := pc';
      actions := actions + [a];
    }

    /** An I/O error: the write is abandoned and the disk stays as it is. */
    method Abandon(purpose: Purpose)
      requires Valid() && up && pc != Idle && pc.purpose == purpose
      modifies this`up, this`pc, this`actions
      ensures GaveUp(purpose) && old(actions) <= actions
    {
      AfterSnoc(actions, Fail);
      up := !(purpose.Initialize? || purpose.Upgrade?);
      pc := Idle;
      actions := actions + [Fail];
    }

    /** The branch of `mark_daemon_state_initialized` that creates the marker. */
    method CreateMarkerFile(purpose: Purpose) returns (ok: bool)
      requires WritingFor(purpose) && disk.marker.NoMarker?
      modifies this`disk, this`up, this`pc, this`actions
      ensures old(actions) <= actions
      ensures ok ==>
        && Valid() && up && pc == Marked(purpose)
        && disk == old(disk).(marker := GoodMarker, entrySynced := true, dataSynced := true)
      ensures !ok ==>
        && GaveUp(purpose) && !disk.marker.NoMarker?
        && disk == old(disk).(marker := disk.marker, entrySynced := false, dataSynced := false)
    {
      Act(CreateMarker, disk.(marker := TornMarker, entrySynced := false, dataSynced := false), MarkCreated(purpose));
      ok := *;
      if !ok {
        Abandon(purpose);
        return;
      }
      Act(FillMarker, disk.(marker := GoodMarker), MarkWritten(purpose));
      ok := *;
      if !ok {
        Abandon(purpose);
        return;
      }
      Act(SyncMarker, disk.(entrySynced := true, dataSynced := true), Marked(purpose));
    }

    /** `mark_daemon_state_initialized`; any I/O call may fail. */
    method MarkInitialized(purpose: Purpose) returns (ok: bool)
      requires WritingFor(purpose)
      modifies this`disk, this`up, this`pc, this`actions
      ensures old(actions) <= actions
      ensures ok ==>
        && Valid() && up && pc == Marked(purpose) && disk.marker.GoodMarker?
        && (old(disk).marker.NoMarker? ==> disk.entrySynced && disk.dataSynced)
      ensures !ok ==> GaveUp(purpose)
      ensures disk.state == old(disk).state && disk.older == old(disk).older && disk.outputs == old(disk).outputs
      ensures old(disk).marker.TornMarker? ==> !ok && disk == old(disk)
    {
      ok := *;
      if !ok || disk.marker.TornMarker? {
        ok := false;
        Abandon(purpose);
      } else if disk.marker.NoMarker? {
        ok := CreateMarkerFile(purpose);
      } else {
        Act(MarkerPresent, disk, Marked(purpose));
      }
    }

    /** `write_daemon_state`: marker first, then an atomic replacement, then the syncs. */
    method WriteDaemonState(purpose: Purpose) returns (ok: bool)
      requires WritingFor(purpose) && !purpose.Upgrade?
      modifies this`disk, this`up, this`pc, this`actions
      ensures old(actions) <= actions
      ensures ok ==>
        && Valid() && up && pc == Durable(purpose)
        && disk.state == Stored(mem) && disk.older == {} && disk.entrySynced && disk.marker.GoodMarker?
      ensures !ok ==> GaveUp(purpose)
    {
      ok := MarkInitialized(purpose);
      if !ok {
        return;
      }
      ok := *;
      if !ok {
        Abandon(purpose);
        return;
      }
      Act(Rename, disk.(state := Stored(mem), older := disk.older + {disk.state}), Renamed(purpose));
      ok := *;
      if !ok {
        Abandon(purpose);
        return;
      }
      Act(SyncState, disk.(older := {}, entrySynced := true), Durable(purpose));
    }

    /** The process comes up from what it read, idle or about to write. */
    method ComeUp(saved: Saved, ghost pc': Pc)
      requires Valid() && !up && Next(World(disk, Down, published), Start) == World(disk, Up(saved, pc'), published)
      modifies this`up, this`mem, this`pc, this`actions
      ensures Valid() && up && mem == saved && pc == pc' && old(actions) <= actions
    {
      AfterSnoc(actions, Start);
      up, mem, pc := true, saved, pc';
      actions := actions + [Start];
    }

    /** `read_daemon_state` at start-up: proceeds from a stored state, marking it if it was never marked;
        writes a first state on a fresh guest; refuses in every other case. Any I/O call may fail. */
    method ReadDaemonState() returns (ok: bool)
      requires Valid() && !up
      modifies this`disk, this`up, this`mem, this`pc, this`actions
      ensures Valid() && up == ok && (ok ==> pc == Idle) && old(actions) <= actions
      ensures ok ==> disk.marker.GoodMarker? && disk.state == Stored(mem)
      ensures ok ==> mem == if old(disk).state.Stored? then old(disk).state.saved else DEFAULT_STATE
      ensures Begin(old(disk)).Refuse? ==> !ok && disk == old(disk)
      ensures old(disk).state.Missing? && (old(disk).outputs || !old(disk).marker.NoMarker?) ==>
        !ok && disk == old(disk)
    {
      ok := *;
      if !ok {
        return;
      }
      match disk.state {
        case Torn => return false;
        case Stored(saved) =>
          if disk.marker.TornMarker? {
            return false;
          }
          if disk.marker.GoodMarker? {
            ComeUp(saved, Idle);
            return;
          }
          ComeUp(saved, Writing(Upgrade));
          ok := MarkInitialized(Upgrade);
        case Missing =>
          if !disk.marker.NoMarker? || disk.outputs {
            return false;
          }
          ComeUp(DEFAULT_STATE, Writing(Initialize));
          ok := WriteDaemonState(Initialize);
      }
      if ok {
        Act(Finish, disk, Idle);
      }
    }

    /** Cache the bundle, check the reservations and plan on a clone; on success commit to memory. */
    method PlanAndCommit(bundle: MeshBundle, serviceId: string, ownPorts: seq<Port>)
      returns (r: Result<RoutePlan, ()>)
      requires Valid() && up && pc == Idle
      modifies this`disk, this`pc, this`actions, this`mem
      ensures Valid() && old(actions) <= actions
      ensures Extends(old(mem).registry, mem.registry)
      ensures r.Ok? <==>
        && (old(mem).owner == None || old(mem).owner == Some(serviceId))
        && (forall e :: e in old(mem).registry ==> old(mem).registry[e] !in ownPorts)
        && Plan(bundle, serviceId, old(mem).registry).Ok?
      ensures disk == old(disk).(outputs := true)
      ensures r.Ok? ==>
        && mem.owner == Some(serviceId)
        && Plan(bundle, serviceId, old(mem).registry) == Ok((r.value, mem.registry))
        && pc == Writing(Endpoints(r.value))
      ensures r.Err? ==> mem == old(mem) && pc == Idle
    {
      AfterSnoc(actions, BeginSync(bundle, serviceId, ownPorts));
      actions := actions + [BeginSync(bundle, serviceId, ownPorts)];
      disk := disk.(outputs := true);
      if !ReservationsAdmit(mem, serviceId, ownPorts) {
        return Err(());
      }
      var clone := new ClientRegistry(mem.registry);
      var plan := RuntimePortPlan(bundle, serviceId, clone);
      if plan.Err? {
        return Err(());
      }
      PlanHolds(bundle, serviceId, mem.registry);
      mem := Saved(Some(serviceId), clone.ports);
      pc := Writing(Endpoints(plan.value));
      r := Ok(plan.value);
    }

    method WriteDirectory(plan: RoutePlan)
      requires Valid() && up && pc == Durable(Endpoints(plan))
      modifies this`disk, this`pc, this`actions, this`published
      ensures Valid() && pc == Idle && old(actions) <= actions
      ensures disk == old(disk).(outputs := true) && published == old(published) + Assignments(plan)
    {
      AfterSnoc(actions, Publish);
      actions := actions + [Publish];
      disk := disk.(outputs := true);
      published := published + Assignments(plan);
      pc := Idle;
    }

    /** The mesh part of `sync_mesh`: plan on a clone, commit, persist, and only then publish. */
    method SyncMesh(bundle: MeshBundle, serviceId: string, ownPorts: seq<Port>)
      returns (r: Result<RoutePlan, ()>)
      requires Valid() && up && pc == Idle
      modifies this
      ensures Valid() && up && pc == Idle && old(actions) <= actions
      ensures Extends(old(mem).registry, mem.registry)
      ensures r.Ok? ==>
        && Plan(bundle, serviceId, old(mem).registry) == Ok((r.value, mem.registry))
        && published == old(published) + Assignments(r.value)
        && disk.state == Stored(mem) && disk.older == {}
      ensures r.Err? ==> published == old(published)
      ensures
        if && (old(mem).owner == None || old(mem).owner == Some(serviceId))
           && (forall e :: e in old(mem).registry ==> old(mem).registry[e] !in ownPorts)
           && Plan(bundle, serviceId, old(mem).registry).Ok?
        then mem == Saved(Some(serviceId), Plan(bundle, serviceId, old(mem).registry).value.1)
        else r.Err? && mem == old(mem) && disk == old(disk).(outputs := true)
    {
      r := PlanAndCommit(bundle, serviceId, ownPorts);
      if r.Err? {
        return;
      }
      var written := WriteDaemonState(Endpoints(r.value));
      if !written {
        return Err(());
      }
      // building the TNG and gateway files, or writing the directory, may still fail
      var built: bool := *;
      if !built {
        Abandon(Endpoints(r.value));
        return Err(());
      }
      WriteDirectory(r.value);
    }
  }
}
