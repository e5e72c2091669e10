/**
 What the files hold after resources have been applied: what is staged overwrites what was there, and the
 management credentials are installed while other resources are still missing.
 */
module GuestContents {
  import opened Results
  import opened GuestResources
  import opened GuestConvergence

  /** The target holds this content, as far as its digest tells. */
  ghost predicate Holds(env: Env, s: State, r: Resource, content: string) {
    r.target in s.fs && env.digest(s.fs[r.target].content) == env.digest(content)
  }

  /** The record names the resource as it is and the digest of this content. */
  ghost predicate RecordedAs(env: Env, s: State, r: Resource, content: string) {
    && r.id in s.applied
    && var a := s.applied[r.id];
       && a.digest == env.digest(content) && a.target == r.target && a.mode == r.mode
       && a.owner == r.owner && a.group == r.group && a.mutable == r.mutable
  }

  // ---------------------------------------------------------------- overwriting

  lemma WriteHolds(env: Env, p: Planned, s: State)
    requires p.update.WriteContent? && ApplyPlanned(env, p, s).error.None?
    ensures Holds(env, ApplyPlanned(env, p, s).state, p.r, p.content)
    ensures RecordedAs(env, ApplyPlanned(env, p, s).state, p.r, p.content)
  {
    ApplyOnceSets(env, s.fs, p.r, p.content);
  }

  lemma {:induction false} AllWritesHold(env: Env, planned: seq<Planned>, s: State, k: nat)
    requires PlannedApart(env, planned) && k < |planned| && planned[k].update.WriteContent?
    requires ApplyAll(env, planned, s).error.None?
    ensures Holds(env, ApplyAll(env, planned, s).state, planned[k].r, planned[k].content)
    ensures RecordedAs(env, ApplyAll(env, planned, s).state, planned[k].r, planned[k].content)
    decreases |planned|
  {
    var n := |planned| - 1;
    var before := ApplyAll(env, planned[..n], s);
    if k == n {
      WriteHolds(env, planned[n], before.state);
    } else {
      AllWritesHold(env, planned[..n], s, k);
      StepKeepsOthers(env, planned[n], before.state, planned[k].r);
    }
  }

  /** The resource is written when it has not been applied before or its target is gone. */
  lemma MutablePlannedAsWrite(env: Env, s: State, start: State, r: Resource, content: string)
    requires r.mutable && (r.id !in s.applied || r.target !in s.fs) && Agree(s, start, r)
    ensures PlanUpdate(env, start, r, content) == Ok(WriteContent)
  {
  }

  /** A mutable resource that has never been applied, or whose target is gone, holds its staged content after
      a successful application, whatever the target held before. */
  lemma FirstApplicationOverwrites(env: Env, boot: Bootstrap, staged: map<Path, string>, failMissing: bool,
                                   portsFree: bool, s: State, r: Resource)
    requires Separate(env, boot.resources) && r in boot.resources && r.mutable && HasSource(env, staged, r)
    requires Apply(env, boot, staged, failMissing, portsFree, s).0 == Ok(true)
    requires r.id !in s.applied || r.target !in s.fs
    ensures Holds(env, Apply(env, boot, staged, failMissing, portsFree, s).1, r, staged[r.source])
    ensures RecordedAs(env, Apply(env, boot, staged, failMissing, portsFree, s).1, r, staged[r.source])
  {
    var rs := StagedOf(env, staged, boot.resources);
    var start := InstallCredentials(env, boot, staged, Retained(boot, s)).state;
    var planned := PlanAll(env, staged, start, failMissing, rs).planned;
    forall q | q in boot.resources && q != r ensures Apart(env, q, r) {
      SeparateApart(env, boot.resources, q, r);
    }
    CredentialsKeepOthers(env, boot, staged, Retained(boot, s), r);
    SuccessSkips(env, staged, start, failMissing, boot.resources);
    PlanSkips(env, staged, start, failMissing, boot.resources);
    PlanCovers(env, staged, start, failMissing, rs);
    SeparateStaged(env, staged, boot.resources);
    SeparatePlan(env, staged, start, rs, planned);
    var k :| 0 <= k < |rs| && rs[k] == r;
    assert PlanFor(env, staged, start, r, planned[k]);
    MutablePlannedAsWrite(env, s, start, r, staged[r.source]);
    AllWritesHold(env, planned, start, k);
  }

  /** A resource that is not mutable holds its staged content after every successful application. */
  lemma StagedContentHeld(env: Env, boot: Bootstrap, staged: map<Path, string>, failMissing: bool, portsFree: bool,
                          s: State, r: Resource)
    requires Separate(env, boot.resources) && r in boot.resources && !r.mutable && HasSource(env, staged, r)
    requires Apply(env, boot, staged, failMissing, portsFree, s).0 == Ok(true)
    ensures Holds(env, Apply(env, boot, staged, failMissing, portsFree, s).1, r, staged[r.source])
    ensures RecordedAs(env, Apply(env, boot, staged, failMissing, portsFree, s).1, r, staged[r.source])
  {
    var rs := StagedOf(env, staged, boot.resources);
    SuccessMeansDone(env, boot, staged, failMissing, portsFree, s);
    var k :| 0 <= k < |rs| && rs[k] == r;
  }

  // ---------------------------------------------------------------- credentials

  lemma {:induction false} FindsOnly(rs: seq<Resource>, r: Resource)
    requires r in rs && forall i, j :: 0 <= i < j < |rs| ==> rs[i].id != rs[j].id
    ensures Find(rs, r.id) == Some(r)
    decreases |rs|
  {
    if rs[0] == r {
    } else {
      assert r in rs[1..];
      var j :| 0 <= j < |rs[1..]| && rs[1..][j] == r;
      assert rs[j + 1] == r;
      FindsOnly(rs[1..], r);
    }
  }

  /** A management credential that can be installed. */
  ghost predicate Installable(env: Env, boot: Bootstrap, staged: map<Path, string>, r: Resource, id: Id, target: Path) {
    && r in boot.resources && r.id == id && r.target == target && r.required && !r.mutable && r.sha256.Some?
    && HasSource(env, staged, r) && env.pathOk(target) && env.pathOk(env.tmp(target)) && Want(env, r).Ok?
  }

  lemma InstallsBoth(env: Env, keys: (Resource, string), host: (Resource, string), s: State)
    requires Apart(env, host.0, keys.0)
    requires env.pathOk(keys.0.target) && env.pathOk(env.tmp(keys.0.target)) && Want(env, keys.0).Ok?
    requires env.pathOk(host.0.target) && env.pathOk(env.tmp(host.0.target)) && Want(env, host.0).Ok?
    ensures var run := InstallBoth(env, keys, host, s);
      && run.error.None? && Holds(env, run.state, keys.0, keys.1) && Holds(env, run.state, host.0, host.1)
      && keys.0.id in run.state.applied && host.0.id in run.state.applied
  {
    ApplyOnceSets(env, s.fs, keys.0, keys.1);
    var fs := ApplyOnce(env, s.fs, keys.0, keys.1).value;
    ApplyOnceSets(env, fs, host.0, host.1);
  }

  /** While another required resource is missing, both management credentials are installed if both are there
      and their metadata are known, so that an operator can look at the guest that waits. */
  lemma CredentialsDoNotWait(env: Env, boot: Bootstrap, staged: map<Path, string>, failMissing: bool, portsFree: bool,
                             s: State, keys: Resource, host: Resource, missing: Resource)
    requires Separate(env, boot.resources)
    requires Installable(env, boot, staged, keys, "cai_ssh_authorized_keys", env.keysTarget)
    requires Installable(env, boot, staged, host, "cai_ssh_host_key", env.hostKeyTarget)
    requires missing in boot.resources && Source(env, staged, missing) == Ok(None) && (failMissing || missing.required)
    ensures var (result, t) := Apply(env, boot, staged, failMissing, portsFree, s);
      && result != Ok(true)
      && Holds(env, t, keys, staged[keys.source]) && Holds(env, t, host, staged[host.source])
      && keys.id in t.applied && host.id in t.applied
  {
    FindsOnly(boot.resources, keys);
    FindsOnly(boot.resources, host);
    SeparateApart(env, boot.resources, host, keys);
    InstallsBoth(env, (keys, staged[keys.source]), (host, staged[host.source]), Retained(boot, s));
    MissingWritesNothing(env, boot, staged, failMissing, portsFree, s, missing, env.keysTarget);
  }
}
