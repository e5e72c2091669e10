/**
 Applying bootstrap resources to the guest's file system.

 Files are regular files in a map; sources are staged apart from it. Digests, name lookup, path checks
 and the temporary name of a target are parameters, and file operations succeed when their checks pass.
 */
module GuestResources {
  import opened Results

  type Path = string
  type Id = string
  type Digest = string

  const MAX_RESOURCE_BYTES := 100 * 1024 * 1024

  /** `fchown` leaves an owner alone that is given as this number; no file belongs to it. */
  const NO_CHANGE := 0xFFFF_FFFF

  type Owner = n: nat | n < NO_CHANGE

  const KEYS_ID := "cai_ssh_authorized_keys"
  const HOST_KEY_ID := "cai_ssh_host_key"

  datatype File = File(content: string, mode: nat, uid: Owner, gid: Owner)

  type Fs = map<Path, File>

  /** Name lookup gives 32-bit numbers, a parsed mode is at most 0o7777. */
  datatype Env = Env(
    digest: string -> Digest, modeOf: string -> Option<nat>, userOf: string -> Option<nat>,
    groupOf: string -> Option<nat>, pathOk: Path -> bool, tmp: Path -> Path, keysTarget: Path, hostKeyTarget: Path)

  datatype Resource = Resource(
    id: Id, source: Path, target: Path, owner: Option<string>, group: Option<string>, mode: string,
    required: bool, mutable: bool, sha256: Option<Digest>)

  datatype Bootstrap = Bootstrap(generation: nat, resources: seq<Resource>)

  datatype Applied = Applied(
    digest: Digest, target: Path, owner: Option<string>, group: Option<string>, mode: string, mutable: bool)

  datatype State = State(fs: Fs, applied: map<Id, Applied>, generation: nat)

  datatype Error =
    | BadPath | BadMode | UnknownUser | UnknownGroup | SourceTooLarge | SourceDigest | BadCredentials
    | ReservedPort | MissingResources | TargetGone

  // ---------------------------------------------------------------- metadata

  datatype Wanted = Wanted(mode: nat, uid: Option<nat>, gid: Option<nat>)

  function Want(env: Env, r: Resource): Result<Wanted, Error> {
    match env.modeOf(r.mode)
    case None => Err(BadMode)
    case Some(mode) =>
      var uid := if r.owner.Some? then env.userOf(r.owner.value) else None;
      var gid := if r.group.Some? then env.groupOf(r.group.value) else None;
      if r.owner.Some? && uid.None? then Err(UnknownUser)
      else if r.group.Some? && gid.None? then Err(UnknownGroup)
      else Ok(Wanted(mode, uid, gid))
  }

  /** The permission bits are compared without the set-id and sticky bits. */
  predicate MetadataMatches(f: File, w: Wanted) {
    f.mode % 0x200 == w.mode && (w.uid.Some? ==> f.uid == w.uid.value) && (w.gid.Some? ==> f.gid == w.gid.value)
  }

  function Owned(wanted: Option<nat>, now: Owner): Owner {
    if wanted.Some? && wanted.value < NO_CHANGE then wanted.value else now
  }

  function WithMetadata(f: File, w: Wanted): File {
    File(f.content, w.mode, Owned(w.uid, f.uid), Owned(w.gid, f.gid))
  }

  function MetadataAsWanted(env: Env, fs: Fs, r: Resource): Result<bool, Error> {
    if !env.pathOk(r.target) then Err(BadPath)
    else if r.target !in fs then Ok(false)
    else
      match Want(env, r)
      case Err(error) => Err(error)
      case Ok(wanted) => Ok(MetadataMatches(fs[r.target], wanted))
  }

  function TargetMatches(env: Env, fs: Fs, r: Resource, digest: Digest): Result<bool, Error> {
    if !env.pathOk(r.target) then Err(BadPath)
    else if r.target !in fs || env.digest(fs[r.target].content) != digest then Ok(false)
    else MetadataAsWanted(env, fs, r)
  }

  // ---------------------------------------------------------------- one resource

  /** The staged content of a resource, if there is any yet. */
  function Source(env: Env, staged: map<Path, string>, r: Resource): Result<Option<string>, Error> {
    if r.source !in staged || staged[r.source] == "" then Ok(None)
    else
      var content := staged[r.source];
      if |content| > MAX_RESOURCE_BYTES then Err(SourceTooLarge)
      else if r.sha256.Some? && r.sha256.value != env.digest(content) then Err(SourceDigest)
      else Ok(Some(content))
  }

  /** `apply_resource_once`: the file system afterwards. New content is written to a temporary file,
      which gets its metadata before it replaces the target. */
  function ApplyOnce(env: Env, fs: Fs, r: Resource, content: string): Result<Fs, Error> {
    if !env.pathOk(r.target) then Err(BadPath)
    else
      match Want(env, r)
      case Err(error) => Err(error)
      case Ok(wanted) =>
        if r.target in fs && env.digest(fs[r.target].content) == env.digest(content) then
          if MetadataMatches(fs[r.target], wanted) then Ok(fs)
          else Ok(fs[r.target := WithMetadata(fs[r.target], wanted)])
        else if !env.pathOk(env.tmp(r.target)) then Err(BadPath)
        else Ok((fs - {env.tmp(r.target)})[r.target := WithMetadata(File(content, 0x180, 0, 0), wanted)])
  }

  function Record(r: Resource, digest: Digest): Applied {
    Applied(digest, r.target, r.owner, r.group, r.mode, r.mutable)
  }

  datatype Update = NoUpdate | WriteContent | MetadataOnly

  datatype Planned = Planned(r: Resource, content: string, update: Update)

  function PlanUpdate(env: Env, s: State, r: Resource, content: string): Result<Update, Error> {
    if r.mutable then
      if r.id !in s.applied || r.target !in s.fs then Ok(WriteContent)
      else
        match MetadataAsWanted(env, s.fs, r)
        case Err(error) => Err(error)
        case Ok(same) => Ok(if same then NoUpdate else MetadataOnly)
    else
      match TargetMatches(env, s.fs, r, env.digest(content))
      case Err(error) => Err(error)
      case Ok(same) => Ok(if same then NoUpdate else WriteContent)
  }

  /** A state and, if a step failed, its error; what was done before stays done. */
  datatype Run = Run(state: State, error: Option<Error>)

  function SetMetadata(env: Env, fs: Fs, r: Resource): Result<Fs, Error> {
    if !env.pathOk(r.target) then Err(BadPath)
    else
      match Want(env, r)
      case Err(error) => Err(error)
      case Ok(wanted) =>
        if r.target in fs then Ok(fs[r.target := WithMetadata(fs[r.target], wanted)]) else Err(TargetGone)
  }

  function UpdatedFs(env: Env, p: Planned, fs: Fs): Result<Fs, Error> {
    match p.update
    case NoUpdate => Ok(fs)
    case WriteContent => ApplyOnce(env, fs, p.r, p.content)
    case MetadataOnly => SetMetadata(env, fs, p.r)
  }

  /** The digest that is recorded: of a mutable target the one found after writing it, or the old one. */
  function RecordedDigest(env: Env, p: Planned, s: State, fs: Fs): Digest {
    if !p.r.mutable then env.digest(p.content)
    else if p.update.WriteContent? && p.r.target in fs then env.digest(fs[p.r.target].content)
    else if p.r.id in s.applied then s.applied[p.r.id].digest
    else env.digest(p.content)
  }

  function ApplyPlanned(env: Env, p: Planned, s: State): Run {
    match UpdatedFs(env, p, s.fs)
    case Err(error) => Run(s, Some(error))
    case Ok(fs) =>
      Run(State(fs, s.applied[p.r.id := Record(p.r, RecordedDigest(env, p, s, fs))], s.generation), None)
  }

  // ---------------------------------------------------------------- all resources

  function ApplyAll(env: Env, planned: seq<Planned>, s: State): Run {
    if planned == [] then Run(s, None)
    else
      var n := |planned| - 1;
      var before := ApplyAll(env, planned[..n], s);
      if before.error.Some? then before else ApplyPlanned(env, planned[n], before.state)
  }

  datatype Planning = Planning(planned: seq<Planned>, missing: seq<Id>, error: Option<Error>)

  function PlanOne(env: Env, staged: map<Path, string>, s: State, failMissing: bool, r: Resource, before: Planning)
    : Planning
  {
    match Source(env, staged, r)
    case Err(error) => before.(error := Some(error))
    case Ok(None) =>
      if failMissing || r.required then before.(missing := before.missing + [r.id]) else before
    case Ok(Some(content)) =>
      match PlanUpdate(env, s, r, content)
      case Err(error) => before.(error := Some(error))
      case Ok(update) => before.(planned := before.planned + [Planned(r, content, update)])
  }

  function PlanAll(env: Env, staged: map<Path, string>, s: State, failMissing: bool, resources: seq<Resource>)
    : Planning
  {
    if resources == [] then Planning([], [], None)
    else
      var n := |resources| - 1;
      var before := PlanAll(env, staged, s, failMissing, resources[..n]);
      if before.error.Some? then before else PlanOne(env, staged, s, failMissing, resources[n], before)
  }

  // ---------------------------------------------------------------- management credentials

  function Find(resources: seq<Resource>, id: Id): (r: Option<Resource>)
    ensures r.Some? ==> r.value in resources && r.value.id == id
  {
    if resources == [] then None
    else if resources[0].id == id then Some(resources[0])
    else Find(resources[1..], id)
  }

  /** A credential and its verified content, nothing if it is not there yet. */
  function Credential(env: Env, boot: Bootstrap, staged: map<Path, string>, id: Id, target: Path)
    : Result<Option<(Resource, string)>, Error>
  {
    match Find(boot.resources, id)
    case None => Ok(None)
    case Some(r) =>
      if !(r.target == target && r.required && !r.mutable && r.sha256.Some?) then Err(BadCredentials)
      else
        match Source(env, staged, r)
        case Err(error) => Err(error)
        case Ok(None) => Ok(None)
        case Ok(Some(content)) => Ok(Some((r, content)))
  }

  function InstallBoth(env: Env, keys: (Resource, string), host: (Resource, string), s: State): Run {
    match ApplyOnce(env, s.fs, keys.0, keys.1)
    case Err(error) => Run(s, Some(error))
    case Ok(fs) =>
      match ApplyOnce(env, fs, host.0, host.1)
      case Err(error) => Run(s.(fs := fs), Some(error))
      case Ok(fs') =>
        Run(s.(fs := fs', applied := s.applied[keys.0.id := Record(keys.0, env.digest(keys.1))]
                                              [host.0.id := Record(host.0, env.digest(host.1))]), None)
  }

  /** Both credentials are verified before either is installed. */
  function InstallCredentials(env: Env, boot: Bootstrap, staged: map<Path, string>, s: State): Run {
    match Credential(env, boot, staged, KEYS_ID, env.keysTarget)
    case Err(error) => Run(s, Some(error))
    case Ok(None) => Run(s, None)
    case Ok(Some(keys)) =>
      match Credential(env, boot, staged, HOST_KEY_ID, env.hostKeyTarget)
      case Err(error) => Run(s, Some(error))
      case Ok(None) => Run(s, None)
      case Ok(Some(host)) => InstallBoth(env, keys, host, s)
  }

  // ---------------------------------------------------------------- the whole application

  function Ids(resources: seq<Resource>): set<Id> {
    set r | r in resources :: r.id
  }

  function Retained(boot: Bootstrap, s: State): State {
    s.(applied := map id | id in s.applied && id in Ids(boot.resources) :: s.applied[id])
  }

  /** `apply_bootstrap_resources`: whether the resources were applied, or the error; and the state. */
  function Apply(env: Env, boot: Bootstrap, staged: map<Path, string>, failMissing: bool, portsFree: bool, s: State)
    : (Result<bool, Error>, State)
  {
    var installed := InstallCredentials(env, boot, staged, Retained(boot, s));
    if installed.error.Some? then (Err(installed.error.value), installed.state)
    else if !portsFree then (Err(ReservedPort), installed.state)
    else
      var plan := PlanAll(env, staged, installed.state, failMissing, boot.resources);
      if plan.error.Some? then (Err(plan.error.value), installed.state)
      else if plan.missing != [] then (if failMissing then Err(MissingResources) else Ok(false), installed.state)
      else
        var run := ApplyAll(env, plan.planned, installed.state);
        if run.error.Some? then (Err(run.error.value), run.state)
        else (Ok(true), run.state.(generation := boot.generation))
  }

  /** `bootstrap_resources_ready` for one resource. */
  function ResourceReady(env: Env, s: State, r: Resource): Result<bool, Error> {
    if r.id !in s.applied || s.applied[r.id] != Record(r, s.applied[r.id].digest) then Ok(false)
    else if r.mutable then MetadataAsWanted(env, s.fs, r)
    else if r.sha256.Some? && s.applied[r.id].digest != r.sha256.value then Ok(false)
    else TargetMatches(env, s.fs, r, s.applied[r.id].digest)
  }

  function AllReady(env: Env, s: State, resources: seq<Resource>): Result<bool, Error> {
    if resources == [] then Ok(true)
    else
      var first := ResourceReady(env, s, resources[0]);
      if first == Ok(true) then AllReady(env, s, resources[1..]) else first
  }

  function Ready(env: Env, boot: Bootstrap, s: State): Result<bool, Error> {
    if s.generation != boot.generation then Ok(false) else AllReady(env, s, boot.resources)
  }

  // ---------------------------------------------------------------- the daemon's methods

  /** The planning loop, which changes nothing. */
  method PlanResources(env: Env, staged: map<Path, string>, s: State, failMissing: bool, resources: seq<Resource>)
    returns (plan: Planning)
    ensures plan == PlanAll(env, staged, s, failMissing, resources)
  {
    plan := Planning([], [], None);
    for i := 0 to |resources|
      invariant plan == PlanAll(env, staged, s, failMissing, resources[..i]) && plan.error.None?
    {
      assert resources[..i + 1][..i] == resources[..i];
      plan := PlanOne(env, staged, s, failMissing, resources[i], plan);
      if plan.error.Some? {
        PlanErrorSticks(env, staged, s, failMissing, resources, i + 1);
        return;
      }
    }
    assert resources[..|resources|] == resources;
  }

  class ResourceDaemon {
    var fs: Fs
    var applied: map<Id, Applied>
    var generation: nat

    ghost function View(): State
      reads this
    {
      State(fs, applied, generation)
    }

    method ApplyOnceHere(env: Env, r: Resource, content: string) returns (error: Option<Error>)
      modifies this`fs
      ensures match ApplyOnce(env, old(fs), r, content)
        case Err(e) => error == Some(e) && fs == old(fs)
        case Ok(after) => error == None && fs == after
    {
      if !env.pathOk(r.target) {
        return Some(BadPath);
      }
      var want := Want(env, r);
      if want.Err? {
        return Some(want.error);
      }
      if r.target in fs && env.digest(fs[r.target].content) == env.digest(content) {
        if !MetadataMatches(fs[r.target], want.value) {
          fs := fs[r.target := WithMetadata(fs[r.target], want.value)];
        }
        return None;
      }
      var tmp := env.tmp(r.target);
      if !env.pathOk(tmp) {
        return Some(BadPath);
      }
      ghost var before := fs;
      fs := fs - {tmp};
      fs := fs[tmp := File(content, 0x180, 0, 0)];
      fs := fs[tmp := WithMetadata(fs[tmp], want.value)];
      var file := fs[tmp];
      fs := (fs - {tmp})[r.target := file];
      assert fs == (before - {tmp})[r.target := file];
      return None;
    }

    method InstallCredentialsHere(env: Env, boot: Bootstrap, staged: map<Path, string>) returns (error: Option<Error>)
      modifies this
      ensures Run(View(), error) == InstallCredentials(env, boot, staged, old(View()))
    {
      var keys := Credential(env, boot, staged, KEYS_ID, env.keysTarget);
      if keys.Err? {
        return Some(keys.error);
      }
      if keys.value.None? {
        return None;
      }
      var host := Credential(env, boot, staged, HOST_KEY_ID, env.hostKeyTarget);
      if host.Err? {
        return Some(host.error);
      }
      if host.value.None? {
        return None;
      }
      var k, h := keys.value.value, host.value.value;
      error := ApplyOnceHere(env, k.0, k.1);
      if error.Some? {
        return;
      }
      error := ApplyOnceHere(env, h.0, h.1);
      if error.Some? {
        return;
      }
      applied := applied[k.0.id := Record(k.0, env.digest(k.1))];
      applied := applied[h.0.id := Record(h.0, env.digest(h.1))];
    }

    method ApplyPlannedHere(env: Env, p: Planned) returns (error: Option<Error>)
      modifies this
      ensures Run(View(), error) == ApplyPlanned(env, p, old(View()))
    {
      match p.update {
        case NoUpdate => error := None;
        case WriteContent => error := ApplyOnceHere(env, p.r, p.content);
        case MetadataOnly =>
          var updated := SetMetadata(env, fs, p.r);
          if updated.Ok? {
            fs := updated.value;
            error := None;
          } else {
            error := Some(updated.error);
          }
      }
      if error.None? {
        var digest := RecordedDigest(env, p, State(fs, applied, generation), fs);
        applied := applied[p.r.id := Record(p.r, digest)];
      }
    }

    /** The applying loop. */
    method ApplyAllHere(env: Env, planned: seq<Planned>) returns (error: Option<Error>)
      modifies this
      ensures Run(View(), error) == ApplyAll(env, planned, old(View()))
    {
      ghost var start := View();
      for i := 0 to |planned|
        invariant Run(View(), None) == ApplyAll(env, planned[..i], start)
      {
        assert planned[..i + 1][..i] == planned[..i];
        error := ApplyPlannedHere(env, planned[i]);
        if error.Some? {
          ApplyErrorSticks(env, planned, start, i + 1);
          return;
        }
      }
      assert planned[..|planned|] == planned;
      error := None;
    }

    /** `apply_bootstrap_resources`. */
    method ApplyBootstrapResources(env: Env, boot: Bootstrap, staged: map<Path, string>, failMissing: bool,
                                   portsFree: bool)
      returns (r: Result<bool, Error>)
      modifies this
      ensures (r, View()) == Apply(env, boot, staged, failMissing, portsFree, old(View()))
    {
      applied := map id | id in applied && id in Ids(boot.resources) :: applied[id];
      var error := InstallCredentialsHere(env, boot, staged);
      if error.Some? {
        return Err(error.value);
      }
      if !portsFree {
        return Err(ReservedPort);
      }
      var plan := PlanResources(env, staged, State(fs, applied, generation), failMissing, boot.resources);
      if plan.error.Some? {
        return Err(plan.error.value);
      }
      if plan.missing != [] {
        return if failMissing then Err(MissingResources) else Ok(false);
      }
      error := ApplyAllHere(env, plan.planned);
      if error.Some? {
        return Err(error.value);
      }
      generation := boot.generation;
      r := Ok(true);
    }
  }

  lemma {:induction false} PlanErrorSticks(env: Env, staged: map<Path, string>, s: State, failMissing: bool,
                                           resources: seq<Resource>, i: nat)
    requires i <= |resources| && PlanAll(env, staged, s, failMissing, resources[..i]).error.Some?
    ensures PlanAll(env, staged, s, failMissing, resources) == PlanAll(env, staged, s, failMissing, resources[..i])
  {
    if i == |resources| {
      assert resources[..i] == resources;
    } else {
      var n := |resources| - 1;
      assert resources[..n][..i] == resources[..i];
      PlanErrorSticks(env, staged, s, failMissing, resources[..n], i);
    }
  }

  lemma {:induction false} ApplyErrorSticks(env: Env, planned: seq<Planned>, s: State, i: nat)
    requires i <= |planned| && ApplyAll(env, planned[..i], s).error.Some?
    ensures ApplyAll(env, planned, s) == ApplyAll(env, planned[..i], s)
  {
    if i == |planned| {
      assert planned[..i] == planned;
    } else {
      var n := |planned| - 1;
      assert planned[..n][..i] == planned[..i];
      ApplyErrorSticks(env, planned[..n], s, i);
    }
  }
}
