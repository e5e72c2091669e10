/**
 When resources can be applied, and what it means that they are ready: exactly, in terms of what is staged,
 what the host knows and what the files hold.
 */
module GuestSuccess {
  import opened Results
  import opened GuestResources
  import opened GuestConvergence
  import GuestContents

  // ---------------------------------------------------------------- one resource

  /** The mode can be read, and owner and group, where given, are known. */
  ghost predicate MetadataKnown(env: Env, r: Resource) {
    && env.modeOf(r.mode).Some?
    && (r.owner.Some? ==> env.userOf(r.owner.value).Some?)
    && (r.group.Some? ==> env.groupOf(r.group.value).Some?)
  }

  lemma WantExactly(env: Env, r: Resource)
    ensures Want(env, r).Ok? <==> MetadataKnown(env, r)
    ensures Want(env, r).Ok? ==>
      var w := Want(env, r).value;
      && Some(w.mode) == env.modeOf(r.mode)
      && w.uid == (match r.owner case Some(name) => env.userOf(name) case None => None)
      && w.gid == (match r.group case Some(name) => env.groupOf(name) case None => None)
  {
  }

  /** A source counts when it is there, is not empty, has at most 100 MiB and matches its digest if one is
      given; one that is absent or empty is missing, and any other is an error. */
  lemma SourceExactly(env: Env, staged: map<Path, string>, r: Resource)
    ensures Source(env, staged, r) == Ok(None) <==> r.source !in staged || staged[r.source] == ""
    ensures HasSource(env, staged, r) <==>
      && r.source in staged && staged[r.source] != "" && |staged[r.source]| <= 104857600
      && (r.sha256.Some? ==> r.sha256.value == env.digest(staged[r.source]))
    ensures HasSource(env, staged, r) ==> Source(env, staged, r) == Ok(Some(staged[r.source]))
  {
  }

  /** Metadata settle exactly when the mode has permission bits only and the owners are below 2^32 - 1. */
  lemma SettlesExactly(w: Wanted)
    ensures Settles(w) <==>
      && w.mode <= 511 && (w.uid.Some? ==> w.uid.value < 4294967295) && (w.gid.Some? ==> w.gid.value < 4294967295)
  {
  }

  /** Setting metadata keeps the content, sets the mode, and leaves an owner alone that is not given. */
  lemma MetadataAreSet(f: File, w: Wanted)
    ensures var g := WithMetadata(f, w);
      && g.content == f.content && g.mode == w.mode
      && (w.uid.None? || w.uid.value == 4294967295 ==> g.uid == f.uid)
      && (w.gid.None? || w.gid.value == 4294967295 ==> g.gid == f.gid)
      && (w.uid.Some? && w.uid.value < 4294967295 ==> g.uid == w.uid.value)
      && (w.gid.Some? && w.gid.value < 4294967295 ==> g.gid == w.gid.value)
  {
  }

  // ---------------------------------------------------------------- readiness

  /** The record is the resource's, the target is there, its permission bits and owners are those wanted, and,
      unless it is mutable, its content is the recorded one, which is the one demanded. */
  ghost predicate InPlace(env: Env, s: State, r: Resource) {
    && r.id in s.applied && r.target in s.fs && env.pathOk(r.target) && MetadataKnown(env, r)
    && var a, f := s.applied[r.id], s.fs[r.target];
       && a.target == r.target && a.mode == r.mode && a.owner == r.owner && a.group == r.group && a.mutable == r.mutable
       && f.mode % 512 == env.modeOf(r.mode).value
       && (r.owner.Some? ==> f.uid == env.userOf(r.owner.value).value)
       && (r.group.Some? ==> f.gid == env.groupOf(r.group.value).value)
       && (!r.mutable ==> env.digest(f.content) == a.digest && (r.sha256.Some? ==> r.sha256.value == a.digest))
  }

  lemma ResourceReadyExactly(env: Env, s: State, r: Resource)
    ensures ResourceReady(env, s, r) == Ok(true) <==> InPlace(env, s, r)
  {
    WantExactly(env, r);
  }

  /** The readiness check accepts exactly when this generation has been applied and every resource is in place. */
  lemma ReadyExactly(env: Env, boot: Bootstrap, s: State)
    ensures Ready(env, boot, s) == Ok(true)
       <==> s.generation == boot.generation && forall r :: r in boot.resources ==> InPlace(env, s, r)
  {
    AllReadyMeans(env, s, boot.resources);
    forall r | r in boot.resources ensures ResourceReady(env, s, r) == Ok(true) <==> InPlace(env, s, r) {
      ResourceReadyExactly(env, s, r);
    }
  }

  // ---------------------------------------------------------------- success

  /** The temporary name of a target that may be written may be written. */
  ghost predicate TemporaryOk(env: Env) {
    forall p :: env.pathOk(p) ==> env.pathOk(env.tmp(p))
  }

  ghost predicate Applicable(env: Env, r: Resource) {
    env.pathOk(r.target) && MetadataKnown(env, r)
  }

  lemma PlansAndWrites(env: Env, s: State, r: Resource, content: string)
    requires Applicable(env, r)
    ensures PlanUpdate(env, s, r, content).Ok?
    ensures PlanUpdate(env, s, r, content) == Ok(MetadataOnly) ==> r.target in s.fs
  {
    WantExactly(env, r);
  }

  lemma WriteSucceeds(env: Env, fs: Fs, r: Resource, content: string)
    requires TemporaryOk(env)
    ensures ApplyOnce(env, fs, r, content).Ok? <==> Applicable(env, r)
  {
    WantExactly(env, r);
  }

  lemma PlannedSucceeds(env: Env, p: Planned, s: State)
    requires Applicable(env, p.r) && TemporaryOk(env) && (p.update.MetadataOnly? ==> p.r.target in s.fs)
    ensures ApplyPlanned(env, p, s).error.None?
  {
    WantExactly(env, p.r);
    WriteSucceeds(env, s.fs, p.r, p.content);
  }

  lemma {:induction false} AllSucceed(env: Env, planned: seq<Planned>, s: State)
    requires PlannedApart(env, planned) && PlannedIn(env, s, planned) && TemporaryOk(env)
    requires forall k :: 0 <= k < |planned| ==> Applicable(env, planned[k].r)
    ensures ApplyAll(env, planned, s).error.None?
    decreases |planned|
  {
    if planned != [] {
      var n := |planned| - 1;
      var before := ApplyAll(env, planned[..n], s);
      AllSucceed(env, planned[..n], s);
      forall p | p in planned[..n] ensures Apart(env, p.r, planned[n].r) {
        var i :| 0 <= i < n && planned[i] == p;
      }
      AllKeepOthers(env, planned[..n], s, planned[n].r);
      PlansAndWrites(env, s, planned[n].r, planned[n].content);
      PlannedSucceeds(env, planned[n], before.state);
    }
  }

  ghost predicate AllApplicable(env: Env, rs: seq<Resource>) {
    forall r :: r in rs ==> Applicable(env, r)
  }

  lemma {:induction false} PlanSucceeds(env: Env, staged: map<Path, string>, s: State, failMissing: bool,
                                        rs: seq<Resource>)
    requires Staged(staged, rs) && AllApplicable(env, rs) && forall r :: r in rs ==> HasSource(env, staged, r)
    ensures PlanAll(env, staged, s, failMissing, rs).error.None?
    decreases |rs|
  {
    if rs != [] {
      var n := |rs| - 1;
      assert rs == rs[..n] + [rs[n]] && rs[n] in rs;
      PlanSucceeds(env, staged, s, failMissing, rs[..n]);
      PlanNext(env, staged, s, failMissing, rs[..n], rs[n]);
      PlansAndWrites(env, s, rs[n], staged[rs[n].source]);
    }
  }

  /** A resource that is a management credential must be one: at its place, required, immutable, with a digest. */
  ghost predicate CredentialOk(boot: Bootstrap, id: Id, target: Path) {
    forall r :: r in boot.resources && r.id == id ==> r.target == target && r.required && !r.mutable && r.sha256.Some?
  }

  /** The host key is looked at only when the authorized keys are there. */
  ghost predicate CredentialsOk(env: Env, boot: Bootstrap, staged: map<Path, string>) {
    && CredentialOk(boot, "cai_ssh_authorized_keys", env.keysTarget)
    && ((exists r :: r in boot.resources && r.id == "cai_ssh_authorized_keys" && HasSource(env, staged, r)) ==>
          CredentialOk(boot, "cai_ssh_host_key", env.hostKeyTarget))
  }

  ghost predicate SourcesOk(env: Env, staged: map<Path, string>, boot: Bootstrap) {
    forall r :: r in boot.resources ==> Source(env, staged, r).Ok?
  }

  lemma {:induction false} FindsNone(rs: seq<Resource>, id: Id)
    requires Find(rs, id).None?
    ensures forall r :: r in rs ==> r.id != id
    decreases |rs|
  {
    if rs != [] {
      FindsNone(rs[1..], id);
      assert rs == [rs[0]] + rs[1..];
    }
  }

  lemma CredentialExactly(env: Env, boot: Bootstrap, staged: map<Path, string>, id: Id, target: Path)
    requires Separate(env, boot.resources) && SourcesOk(env, staged, boot)
    ensures var c := Credential(env, boot, staged, id, target);
      && (c.Ok? <==> CredentialOk(boot, id, target))
      && (c.Ok? ==> (c.value.Some? <==> exists r :: r in boot.resources && r.id == id && HasSource(env, staged, r)))
  {
    var found := Find(boot.resources, id);
    if found.None? {
      FindsNone(boot.resources, id);
    } else {
      forall r | r in boot.resources && r.id == id ensures r == found.value {
        GuestContents.FindsOnly(boot.resources, r);
      }
    }
  }

  lemma CredentialsSucceed(env: Env, boot: Bootstrap, staged: map<Path, string>, s: State)
    requires Separate(env, boot.resources) && SourcesOk(env, staged, boot) && CredentialsOk(env, boot, staged)
    requires TemporaryOk(env) && AllApplicable(env, StagedOf(env, staged, boot.resources))
    ensures InstallCredentials(env, boot, staged, s).error.None?
  {
    CredentialExactly(env, boot, staged, KEYS_ID, env.keysTarget);
    var keys := Credential(env, boot, staged, KEYS_ID, env.keysTarget);
    if keys.value.Some? {
      CredentialExactly(env, boot, staged, HOST_KEY_ID, env.hostKeyTarget);
      var host := Credential(env, boot, staged, HOST_KEY_ID, env.hostKeyTarget);
      if host.value.Some? {
        BothSucceed(env, keys.value.value, host.value.value, s);
      }
    }
  }

  lemma BothSucceed(env: Env, keys: (Resource, string), host: (Resource, string), s: State)
    requires TemporaryOk(env)
    ensures InstallBoth(env, keys, host, s).error.None? <==> Applicable(env, keys.0) && Applicable(env, host.0)
  {
    WriteSucceeds(env, s.fs, keys.0, keys.1);
    if Applicable(env, keys.0) {
      WriteSucceeds(env, ApplyOnce(env, s.fs, keys.0, keys.1).value, host.0, host.1);
    }
  }

  lemma CredentialsMustBeOk(env: Env, boot: Bootstrap, staged: map<Path, string>, s: State)
    requires Separate(env, boot.resources) && SourcesOk(env, staged, boot)
    requires InstallCredentials(env, boot, staged, s).error.None?
    ensures CredentialsOk(env, boot, staged)
  {
    CredentialExactly(env, boot, staged, KEYS_ID, env.keysTarget);
    CredentialExactly(env, boot, staged, HOST_KEY_ID, env.hostKeyTarget);
  }

  /** Everything that an application needs: no own port is reserved, only optional resources are missing, every
      other source passes its checks, every target may be written and its metadata are known, and what goes by
      the name of a management credential is one. */
  ghost predicate CanApply(env: Env, boot: Bootstrap, staged: map<Path, string>, failMissing: bool, portsFree: bool) {
    && portsFree && Skippable(env, staged, failMissing, boot.resources)
    && AllApplicable(env, StagedOf(env, staged, boot.resources)) && CredentialsOk(env, boot, staged)
  }

  lemma ApplySucceeds(env: Env, boot: Bootstrap, staged: map<Path, string>, failMissing: bool, portsFree: bool,
                      s: State)
    requires Separate(env, boot.resources) && TemporaryOk(env) && CanApply(env, boot, staged, failMissing, portsFree)
    ensures Apply(env, boot, staged, failMissing, portsFree, s).0 == Ok(true)
  {
    var rs := StagedOf(env, staged, boot.resources);
    var start := InstallCredentials(env, boot, staged, Retained(boot, s)).state;
    CredentialsSucceed(env, boot, staged, Retained(boot, s));
    PlanSkips(env, staged, start, failMissing, boot.resources);
    PlanSucceeds(env, staged, start, failMissing, rs);
    PlanCovers(env, staged, start, failMissing, rs);
    SeparateStaged(env, staged, boot.resources);
    var planned := PlanAll(env, staged, start, failMissing, rs).planned;
    SeparatePlan(env, staged, start, rs, planned);
    forall k | 0 <= k < |planned| ensures Applicable(env, planned[k].r) {
      assert PlanFor(env, staged, start, rs[k], planned[k]) && rs[k] in rs;
    }
    AllSucceed(env, planned, start);
  }

  lemma DoneIsApplicable(env: Env, staged: map<Path, string>, t: State, rs: seq<Resource>)
    requires Staged(staged, rs) && AllDoneIn(env, staged, t, rs)
    ensures AllApplicable(env, rs)
  {
    forall r | r in rs ensures Applicable(env, r) {
      var k :| 0 <= k < |rs| && rs[k] == r;
      assert Done(env, t, r, staged[r.source]);
      WantExactly(env, r);
    }
  }

  lemma SuccessNeeds(env: Env, boot: Bootstrap, staged: map<Path, string>, failMissing: bool, portsFree: bool, s: State)
    requires Separate(env, boot.resources)
    requires Apply(env, boot, staged, failMissing, portsFree, s).0 == Ok(true)
    ensures CanApply(env, boot, staged, failMissing, portsFree)
  {
    var rs, t := StagedOf(env, staged, boot.resources), Apply(env, boot, staged, failMissing, portsFree, s).1;
    SuccessMeansDone(env, boot, staged, failMissing, portsFree, s);
    SuccessNeedsCredentials(env, boot, staged, failMissing, portsFree, s);
    CredentialsMustBeOk(env, boot, staged, Retained(boot, s));
    DoneIsApplicable(env, staged, t, rs);
  }

  /** An application succeeds exactly when that is so, whatever files and records it finds. */
  lemma ApplySucceedsExactly(env: Env, boot: Bootstrap, staged: map<Path, string>, failMissing: bool, portsFree: bool,
                             s: State)
    requires Separate(env, boot.resources) && TemporaryOk(env)
    ensures Apply(env, boot, staged, failMissing, portsFree, s).0 == Ok(true)
       <==> CanApply(env, boot, staged, failMissing, portsFree)
  {
    if Apply(env, boot, staged, failMissing, portsFree, s).0 == Ok(true) {
      SuccessNeeds(env, boot, staged, failMissing, portsFree, s);
    } else if CanApply(env, boot, staged, failMissing, portsFree) {
      ApplySucceeds(env, boot, staged, failMissing, portsFree, s);
    }
  }
}
