/**
 What applying bootstrap resources achieves: when the result is ready and stable, what a mutable target
 keeps, and what is left alone while a resource is missing.
 */
module GuestConvergence {
  import opened Results
  import opened GuestResources

  /** Identifiers and targets are distinct and no target is the temporary name of one. */
  ghost predicate Separate(env: Env, rs: seq<Resource>) {
    && (forall i, j :: 0 <= i < j < |rs| ==> rs[i].id != rs[j].id && rs[i].target != rs[j].target)
    && (forall i, j :: 0 <= i < |rs| && 0 <= j < |rs| ==> rs[i].target != env.tmp(rs[j].target))
  }

  ghost predicate Staged(staged: map<Path, string>, rs: seq<Resource>) {
    forall r :: r in rs ==> r.source in staged && staged[r.source] != ""
  }

  /** The source of the resource is there and passes its checks. */
  predicate HasSource(env: Env, staged: map<Path, string>, r: Resource) {
    Source(env, staged, r).Ok? && Source(env, staged, r).value.Some?
  }

  /** The resources whose sources are there, in order. */
  function StagedOf(env: Env, staged: map<Path, string>, rs: seq<Resource>): (out: seq<Resource>)
    ensures forall r :: r in out <==> r in rs && HasSource(env, staged, r)
    ensures Staged(staged, out)
  {
    if rs == [] then []
    else
      var n := |rs| - 1;
      assert rs == rs[..n] + [rs[n]];
      StagedOf(env, staged, rs[..n]) + if HasSource(env, staged, rs[n]) then [rs[n]] else []
  }

  /** Every source that is there passes its checks, and only optional ones are not there. */
  ghost predicate Skippable(env: Env, staged: map<Path, string>, failMissing: bool, rs: seq<Resource>) {
    forall r :: r in rs ==>
      HasSource(env, staged, r) || (Source(env, staged, r) == Ok(None) && !failMissing && !r.required)
  }

  lemma SeparateApart(env: Env, rs: seq<Resource>, q: Resource, r: Resource)
    requires Separate(env, rs) && q in rs && r in rs && q != r
    ensures Apart(env, q, r)
  {
    var i :| 0 <= i < |rs| && rs[i] == q;
    var j :| 0 <= j < |rs| && rs[j] == r;
    assert i < j || j < i;
  }

  lemma {:induction false} SeparateStaged(env: Env, staged: map<Path, string>, rs: seq<Resource>)
    requires Separate(env, rs)
    ensures Separate(env, StagedOf(env, staged, rs))
  {
    if rs != [] {
      var n := |rs| - 1;
      var before := StagedOf(env, staged, rs[..n]);
      SeparateStaged(env, staged, rs[..n]);
      forall q | q in before ensures q.id != rs[n].id && q.target != rs[n].target {
        var i :| 0 <= i < n && rs[..n][i] == q;
        assert rs[i] == q;
      }
      forall q | q in before + [rs[n]]
        ensures q.target != env.tmp(rs[n].target) && rs[n].target != env.tmp(q.target)
      {
        assert q in rs;
      }
    }
  }

  /** Metadata that a file can be seen to have: permission bits only, and owners a file can have. */
  predicate Settles(w: Wanted) {
    w.mode < 0x200 && (w.uid.Some? ==> w.uid.value < NO_CHANGE) && (w.gid.Some? ==> w.gid.value < NO_CHANGE)
  }

  lemma SettingSettles(f: File, w: Wanted)
    ensures MetadataMatches(WithMetadata(f, w), w) <==> Settles(w)
    ensures MetadataMatches(f, w) ==> Settles(w)
  {
  }

  // ---------------------------------------------------------------- one resource

  /** The resource has been applied with this content; its metadata are seen to match if they can be. */
  ghost predicate Done(env: Env, s: State, r: Resource, content: string) {
    && env.pathOk(r.target) && r.target in s.fs && r.id in s.applied
    && s.applied[r.id] == Record(r, s.applied[r.id].digest)
    && Want(env, r).Ok?
    && (Settles(Want(env, r).value) <==> MetadataMatches(s.fs[r.target], Want(env, r).value))
    && (!r.mutable ==> s.applied[r.id].digest == env.digest(content)
                       && env.digest(s.fs[r.target].content) == env.digest(content))
  }

  /** The two states hold the same about a resource. */
  ghost predicate Agree(s: State, t: State, r: Resource) {
    && (r.target in s.fs <==> r.target in t.fs) && (r.target in s.fs ==> s.fs[r.target] == t.fs[r.target])
    && (r.id in s.applied <==> r.id in t.applied) && (r.id in s.applied ==> s.applied[r.id] == t.applied[r.id])
  }

  ghost predicate Apart(env: Env, p: Resource, r: Resource) {
    p.target != r.target && env.tmp(p.target) != r.target && p.id != r.id
  }

  lemma ApplyOnceSets(env: Env, fs: Fs, r: Resource, content: string)
    requires ApplyOnce(env, fs, r, content).Ok?
    ensures var after := ApplyOnce(env, fs, r, content).value;
      && env.pathOk(r.target) && Want(env, r).Ok? && r.target in after
      && env.digest(after[r.target].content) == env.digest(content)
      && (Settles(Want(env, r).value) <==> MetadataMatches(after[r.target], Want(env, r).value))
  {
    var wanted := Want(env, r).value;
    if r.target in fs {
      SettingSettles(fs[r.target], wanted);
    }
    SettingSettles(File(content, 0x180, 0, 0), wanted);
  }

  /** A planned update, made in a state that agrees with the one it was planned in, does its job. */
  lemma StepDone(env: Env, p: Planned, s0: State, s: State)
    requires PlanUpdate(env, s0, p.r, p.content) == Ok(p.update) && Agree(s0, s, p.r)
    requires ApplyPlanned(env, p, s).error.None?
    ensures Done(env, ApplyPlanned(env, p, s).state, p.r, p.content)
  {
    if p.r.target in s.fs && Want(env, p.r).Ok? {
      SettingSettles(s.fs[p.r.target], Want(env, p.r).value);
    }
    if p.update.WriteContent? {
      ApplyOnceSets(env, s.fs, p.r, p.content);
    }
  }

  lemma StepKeepsOthers(env: Env, p: Planned, s: State, r: Resource)
    requires Apart(env, p.r, r)
    ensures Agree(s, ApplyPlanned(env, p, s).state, r)
  {
  }

  // ---------------------------------------------------------------- all planned resources

  lemma {:induction false} AllKeepOthers(env: Env, planned: seq<Planned>, s: State, r: Resource)
    requires forall p :: p in planned ==> Apart(env, p.r, r)
    ensures Agree(s, ApplyAll(env, planned, s).state, r)
  {
    if planned != [] {
      var n := |planned| - 1;
      AllKeepOthers(env, planned[..n], s, r);
      StepKeepsOthers(env, planned[n], ApplyAll(env, planned[..n], s).state, r);
    }
  }

  ghost predicate PlannedApart(env: Env, planned: seq<Planned>) {
    forall i, j :: 0 <= i < |planned| && 0 <= j < |planned| && i != j ==> Apart(env, planned[i].r, planned[j].r)
  }

  ghost predicate PlannedIn(env: Env, s: State, planned: seq<Planned>) {
    forall k :: 0 <= k < |planned| ==> PlanUpdate(env, s, planned[k].r, planned[k].content) == Ok(planned[k].update)
  }

  lemma DoneStays(env: Env, s: State, t: State, r: Resource, content: string)
    requires Done(env, s, r, content) && Agree(s, t, r)
    ensures Done(env, t, r, content)
  {
  }

  lemma {:induction false} AllDone(env: Env, planned: seq<Planned>, s: State, k: nat)
    requires PlannedApart(env, planned) && PlannedIn(env, s, planned) && k < |planned|
    requires ApplyAll(env, planned, s).error.None?
    ensures Done(env, ApplyAll(env, planned, s).state, planned[k].r, planned[k].content)
  {
    var n := |planned| - 1;
    var before := ApplyAll(env, planned[..n], s);
    if k == n {
      forall p | p in planned[..n] ensures Apart(env, p.r, planned[n].r) {
        var i :| 0 <= i < n && planned[i] == p;
      }
      AllKeepOthers(env, planned[..n], s, planned[n].r);
      StepDone(env, planned[n], s, before.state);
    } else {
      AllDone(env, planned[..n], s, k);
      StepKeepsOthers(env, planned[n], before.state, planned[k].r);
      DoneStays(env, before.state, ApplyAll(env, planned, s).state, planned[k].r, planned[k].content);
    }
  }

  /** Nothing is left to do for a resource that is done and settles. */
  lemma NothingToDo(env: Env, s: State, r: Resource, content: string)
    requires Done(env, s, r, content) && Settles(Want(env, r).value)
    ensures PlanUpdate(env, s, r, content) == Ok(NoUpdate)
    ensures ApplyPlanned(env, Planned(r, content, NoUpdate), s) == Run(s, None)
    ensures !r.mutable ==> ApplyOnce(env, s.fs, r, content) == Ok(s.fs)
    ensures !r.mutable ==> s.applied[r.id := Record(r, env.digest(content))] == s.applied
  {
    assert s.applied[r.id := s.applied[r.id]] == s.applied;
  }

  // ---------------------------------------------------------------- planning

  lemma PlanOneAdds(env: Env, staged: map<Path, string>, s: State, failMissing: bool, r: Resource, before: Planning)
    requires r.source in staged && staged[r.source] != "" && before.error.None?
    requires PlanOne(env, staged, s, failMissing, r, before).error.None?
    ensures PlanUpdate(env, s, r, staged[r.source]).Ok?
    ensures var p := Planned(r, staged[r.source], PlanUpdate(env, s, r, staged[r.source]).value);
      && PlanOne(env, staged, s, failMissing, r, before) == before.(planned := before.planned + [p])
      && PlanFor(env, staged, s, r, p)
  {
  }

  ghost predicate PlanFor(env: Env, staged: map<Path, string>, s: State, r: Resource, p: Planned) {
    && r.source in staged && p.r == r && p.content == staged[r.source]
    && PlanUpdate(env, s, r, p.content) == Ok(p.update) && Source(env, staged, r).Ok?
  }

  /** One planned update for each resource, in order. */
  ghost predicate Covers(env: Env, staged: map<Path, string>, s: State, rs: seq<Resource>, planned: seq<Planned>) {
    |planned| == |rs| && forall k :: 0 <= k < |rs| ==> PlanFor(env, staged, s, rs[k], planned[k])
  }

  lemma CoversOneMore(env: Env, staged: map<Path, string>, s: State, rs: seq<Resource>, planned: seq<Planned>,
                      r: Resource, p: Planned)
    requires Covers(env, staged, s, rs, planned) && PlanFor(env, staged, s, r, p)
    ensures Covers(env, staged, s, rs + [r], planned + [p])
  {
  }

  lemma {:induction false} PlanCovers(env: Env, staged: map<Path, string>, s: State, failMissing: bool,
                                      rs: seq<Resource>)
    requires Staged(staged, rs) && PlanAll(env, staged, s, failMissing, rs).error.None?
    ensures var plan := PlanAll(env, staged, s, failMissing, rs);
      plan.missing == [] && Covers(env, staged, s, rs, plan.planned)
  {
    if rs != [] {
      var n := |rs| - 1;
      assert rs == rs[..n] + [rs[n]] && rs[n] in rs;
      PlanNext(env, staged, s, failMissing, rs[..n], rs[n]);
      PlanCovers(env, staged, s, failMissing, rs[..n]);
      var before := PlanAll(env, staged, s, failMissing, rs[..n]);
      PlanOneAdds(env, staged, s, failMissing, rs[n], before);
      CoversOneMore(env, staged, s, rs[..n], before.planned, rs[n],
                    Planned(rs[n], staged[rs[n].source], PlanUpdate(env, s, rs[n], staged[rs[n].source]).value));
    }
  }

  ghost predicate AllDoneIn(env: Env, staged: map<Path, string>, s: State, rs: seq<Resource>)
    requires Staged(staged, rs)
  {
    forall k :: 0 <= k < |rs| ==> assert rs[k] in rs; Done(env, s, rs[k], staged[rs[k].source])
  }

  /** When every resource is done and settles, a second application plans and changes nothing. */
  lemma {:induction false} PlansNothing(env: Env, staged: map<Path, string>, s: State, failMissing: bool,
                                        rs: seq<Resource>)
    requires Staged(staged, rs) && AllDoneIn(env, staged, s, rs)
    requires forall r :: r in rs ==> Settles(Want(env, r).value)
    requires forall r :: r in rs ==> Source(env, staged, r).Ok?
    ensures var plan := PlanAll(env, staged, s, failMissing, rs);
      plan.error.None? && plan.missing == [] && ApplyAll(env, plan.planned, s) == Run(s, None)
  {
    if rs != [] {
      var n := |rs| - 1;
      assert forall r :: r in rs[..n] ==> r in rs;
      PlansNothing(env, staged, s, failMissing, rs[..n]);
      var r, content := rs[n], staged[rs[n].source];
      assert r in rs;
      NothingToDo(env, s, r, content);
      var before := PlanAll(env, staged, s, failMissing, rs[..n]);
      var planned := before.planned + [Planned(r, content, NoUpdate)];
      assert planned[..|before.planned|] == before.planned;
    }
  }

  lemma {:induction false} SuccessSkips(env: Env, staged: map<Path, string>, s: State, failMissing: bool,
                                        rs: seq<Resource>)
    requires var plan := PlanAll(env, staged, s, failMissing, rs); plan.error.None? && plan.missing == []
    ensures Skippable(env, staged, failMissing, rs)
  {
    if rs != [] {
      var n := |rs| - 1;
      SuccessSkips(env, staged, s, failMissing, rs[..n]);
      assert forall r :: r in rs ==> r in rs[..n] || r == rs[n];
    }
  }

  lemma PlanNext(env: Env, staged: map<Path, string>, s: State, failMissing: bool, rs: seq<Resource>, r: Resource)
    ensures var before := PlanAll(env, staged, s, failMissing, rs);
      PlanAll(env, staged, s, failMissing, rs + [r])
      == if before.error.Some? then before else PlanOne(env, staged, s, failMissing, r, before)
  {
    assert (rs + [r])[..|rs|] == rs;
  }

  /** Planning passes over what is not there. */
  lemma {:induction false} PlanSkips(env: Env, staged: map<Path, string>, s: State, failMissing: bool,
                                     rs: seq<Resource>)
    requires Skippable(env, staged, failMissing, rs)
    ensures PlanAll(env, staged, s, failMissing, rs) == PlanAll(env, staged, s, failMissing, StagedOf(env, staged, rs))
  {
    if rs != [] {
      var n := |rs| - 1;
      var r, before := rs[n], StagedOf(env, staged, rs[..n]);
      assert rs == rs[..n] + [r];
      PlanSkips(env, staged, s, failMissing, rs[..n]);
      PlanNext(env, staged, s, failMissing, rs[..n], r);
      if HasSource(env, staged, r) {
        PlanNext(env, staged, s, failMissing, before, r);
        assert StagedOf(env, staged, rs) == before + [r];
      } else {
        assert r in rs && StagedOf(env, staged, rs) == before;
      }
    }
  }

  // ---------------------------------------------------------------- the whole application

  /** What has been recorded belongs to the bootstrap's resources. */
  ghost predicate Within(s: State, rs: seq<Resource>) {
    forall id :: id in s.applied ==> id in Ids(rs)
  }

  lemma CredentialsStayWithin(env: Env, boot: Bootstrap, staged: map<Path, string>, s: State)
    requires Within(s, boot.resources)
    ensures Within(InstallCredentials(env, boot, staged, s).state, boot.resources)
  {
  }

  lemma {:induction false} AllStayWithin(env: Env, planned: seq<Planned>, s: State, rs: seq<Resource>)
    requires Within(s, rs) && forall p :: p in planned ==> p.r in rs
    ensures Within(ApplyAll(env, planned, s).state, rs)
  {
    if planned != [] {
      AllStayWithin(env, planned[..|planned| - 1], s, rs);
    }
  }

  lemma SeparatePlan(env: Env, staged: map<Path, string>, s: State, rs: seq<Resource>, planned: seq<Planned>)
    requires Separate(env, rs) && Covers(env, staged, s, rs, planned)
    ensures PlannedApart(env, planned) && PlannedIn(env, s, planned)
    ensures forall p :: p in planned ==> p.r in rs
  {
    forall i, j | 0 <= i < |planned| && 0 <= j < |planned| && i != j ensures Apart(env, planned[i].r, planned[j].r) {
      assert planned[i].r == rs[i] && planned[j].r == rs[j];
    }
    forall p | p in planned ensures p.r in rs {
      var k :| 0 <= k < |planned| && planned[k] == p;
      assert p.r == rs[k];
    }
  }

  /** What is not there is left as it was. */
  lemma UnstagedKept(env: Env, boot: Bootstrap, staged: map<Path, string>, planned: seq<Planned>, s: State, r: Resource)
    requires Separate(env, boot.resources) && r in boot.resources && Source(env, staged, r) == Ok(None)
    requires forall p :: p in planned ==> p.r in StagedOf(env, staged, boot.resources)
    ensures Agree(s, ApplyAll(env, planned, InstallCredentials(env, boot, staged, Retained(boot, s)).state).state, r)
  {
    var start := InstallCredentials(env, boot, staged, Retained(boot, s)).state;
    forall q | q in boot.resources && q != r ensures Apart(env, q, r) {
      SeparateApart(env, boot.resources, q, r);
    }
    CredentialsKeepOthers(env, boot, staged, Retained(boot, s), r);
    AllKeepOthers(env, planned, start, r);
  }

  lemma AllPlannedDone(env: Env, staged: map<Path, string>, start: State, t: State, rs: seq<Resource>,
                       planned: seq<Planned>)
    requires Separate(env, rs) && Staged(staged, rs) && Covers(env, staged, start, rs, planned)
    requires var run := ApplyAll(env, planned, start);
      run.error.None? && t.fs == run.state.fs && t.applied == run.state.applied
    ensures AllDoneIn(env, staged, t, rs)
  {
    SeparatePlan(env, staged, start, rs, planned);
    forall k | 0 <= k < |rs| ensures Done(env, t, rs[k], staged[rs[k].source]) {
      assert PlanFor(env, staged, start, rs[k], planned[k]);
      AllDone(env, planned, start, k);
      DoneStays(env, ApplyAll(env, planned, start).state, t, rs[k], planned[k].content);
    }
  }

  /** After a successful application everything whose source is there is done, and what is not there is
      optional and has been left as it was. */
  lemma SuccessMeansDone(env: Env, boot: Bootstrap, staged: map<Path, string>, failMissing: bool, portsFree: bool,
                         s: State)
    requires Separate(env, boot.resources)
    requires Apply(env, boot, staged, failMissing, portsFree, s).0 == Ok(true)
    ensures var t := Apply(env, boot, staged, failMissing, portsFree, s).1;
      && t.generation == boot.generation && Within(t, boot.resources)
      && Skippable(env, staged, failMissing, boot.resources)
      && AllDoneIn(env, staged, t, StagedOf(env, staged, boot.resources))
      && forall r :: r in boot.resources && Source(env, staged, r) == Ok(None) ==> Agree(s, t, r)
  {
    var rs := StagedOf(env, staged, boot.resources);
    var start := InstallCredentials(env, boot, staged, Retained(boot, s)).state;
    CredentialsStayWithin(env, boot, staged, Retained(boot, s));
    SuccessSkips(env, staged, start, failMissing, boot.resources);
    PlanSkips(env, staged, start, failMissing, boot.resources);
    var planned := PlanAll(env, staged, start, failMissing, rs).planned;
    PlanCovers(env, staged, start, failMissing, rs);
    SeparateStaged(env, staged, boot.resources);
    SeparatePlan(env, staged, start, rs, planned);
    AllStayWithin(env, planned, start, boot.resources);
    var t := ApplyAll(env, planned, start).state.(generation := boot.generation);
    AllPlannedDone(env, staged, start, t, rs, planned);
    forall r | r in boot.resources && Source(env, staged, r) == Ok(None) ensures Agree(s, t, r) {
      UnstagedKept(env, boot, staged, planned, s, r);
    }
  }

  ghost predicate AllSettle(env: Env, rs: seq<Resource>) {
    forall r :: r in rs ==> Want(env, r).Ok? && Settles(Want(env, r).value)
  }

  lemma DoneIsReady(env: Env, staged: map<Path, string>, s: State, r: Resource, content: string)
    requires Done(env, s, r, content) && r.source in staged && staged[r.source] == content
    requires content != "" && Source(env, staged, r).Ok?
    ensures ResourceReady(env, s, r) == Ok(Settles(Want(env, r).value))
  {
  }

  lemma {:induction false} AllReadyMeans(env: Env, s: State, rs: seq<Resource>)
    ensures AllReady(env, s, rs) == Ok(true) <==> forall r :: r in rs ==> ResourceReady(env, s, r) == Ok(true)
  {
    if rs != [] {
      assert forall q :: q in rs <==> q == rs[0] || q in rs[1..];
      AllReadyMeans(env, s, rs[1..]);
    }
  }

  lemma AgreedReadiness(env: Env, s: State, t: State, r: Resource)
    requires Agree(s, t, r)
    ensures ResourceReady(env, t, r) == ResourceReady(env, s, r)
  {
  }

  /** What a successful application needs of a resource for the readiness check: metadata that settle if
      its source is there, else that it was ready before. */
  ghost predicate WillBeReady(env: Env, staged: map<Path, string>, s: State, r: Resource) {
    if HasSource(env, staged, r) then Want(env, r).Ok? && Settles(Want(env, r).value)
    else ResourceReady(env, s, r) == Ok(true)
  }

  lemma CredentialsAgain(env: Env, boot: Bootstrap, staged: map<Path, string>, s: State, t: State)
    requires AllDoneIn(env, staged, t, StagedOf(env, staged, boot.resources))
    requires AllSettle(env, StagedOf(env, staged, boot.resources))
    requires InstallCredentials(env, boot, staged, s).error.None?
    ensures InstallCredentials(env, boot, staged, t) == Run(t, None)
  {
    var keys := Credential(env, boot, staged, KEYS_ID, env.keysTarget);
    var host := Credential(env, boot, staged, HOST_KEY_ID, env.hostKeyTarget);
    if keys.Ok? && keys.value.Some? && host.Ok? && host.value.Some? {
      CredentialDone(env, boot, staged, t, KEYS_ID, env.keysTarget);
      CredentialDone(env, boot, staged, t, HOST_KEY_ID, env.hostKeyTarget);
    }
  }

  lemma CredentialDone(env: Env, boot: Bootstrap, staged: map<Path, string>, t: State, id: Id, target: Path)
    requires AllDoneIn(env, staged, t, StagedOf(env, staged, boot.resources))
    requires AllSettle(env, StagedOf(env, staged, boot.resources))
    requires Credential(env, boot, staged, id, target).Ok? && Credential(env, boot, staged, id, target).value.Some?
    ensures var c := Credential(env, boot, staged, id, target).value.value;
      && ApplyOnce(env, t.fs, c.0, c.1) == Ok(t.fs)
      && t.applied[c.0.id := Record(c.0, env.digest(c.1))] == t.applied
  {
    var c := Credential(env, boot, staged, id, target).value.value;
    var rs := StagedOf(env, staged, boot.resources);
    assert HasSource(env, staged, c.0) && c.0 in rs;
    var k :| 0 <= k < |rs| && rs[k] == c.0;
    NothingToDo(env, t, c.0, c.1);
  }

  lemma ReadyAfter(env: Env, staged: map<Path, string>, s: State, t: State, rs: seq<Resource>, r: Resource)
    requires Staged(staged, rs) && AllDoneIn(env, staged, t, rs)
    requires if HasSource(env, staged, r) then r in rs else Agree(s, t, r)
    ensures ResourceReady(env, t, r) == Ok(true) <==> WillBeReady(env, staged, s, r)
  {
    if HasSource(env, staged, r) {
      var k :| 0 <= k < |rs| && rs[k] == r;
      DoneIsReady(env, staged, t, r, staged[r.source]);
    } else {
      AgreedReadiness(env, s, t, r);
    }
  }

  /** With paths that do not get in each other's way, a successful application is accepted by the readiness
      check exactly when every resource whose source is there has a mode of at most 0o777 and owners a file
      can have, and every other one was ready before. */
  lemma ApplyMakesReady(env: Env, boot: Bootstrap, staged: map<Path, string>, failMissing: bool, portsFree: bool,
                        s: State)
    requires Separate(env, boot.resources)
    requires Apply(env, boot, staged, failMissing, portsFree, s).0 == Ok(true)
    ensures Ready(env, boot, Apply(env, boot, staged, failMissing, portsFree, s).1) == Ok(true)
        <==> forall r :: r in boot.resources ==> WillBeReady(env, staged, s, r)
  {
    var rs, t := StagedOf(env, staged, boot.resources), Apply(env, boot, staged, failMissing, portsFree, s).1;
    SuccessMeansDone(env, boot, staged, failMissing, portsFree, s);
    AllReadyMeans(env, t, boot.resources);
    forall r | r in boot.resources ensures ResourceReady(env, t, r) == Ok(true) <==> WillBeReady(env, staged, s, r) {
      ReadyAfter(env, staged, s, t, rs, r);
    }
  }

  lemma ApplyOfStable(env: Env, boot: Bootstrap, staged: map<Path, string>, failMissing: bool, t: State, plan: Planning)
    requires Retained(boot, t) == t && t.generation == boot.generation
    requires InstallCredentials(env, boot, staged, t) == Run(t, None)
    requires plan == PlanAll(env, staged, t, failMissing, boot.resources) && plan.error.None? && plan.missing == []
    requires ApplyAll(env, plan.planned, t) == Run(t, None)
    ensures Apply(env, boot, staged, failMissing, true, t) == (Ok(true), t)
  {
  }

  lemma StableFromDone(env: Env, boot: Bootstrap, staged: map<Path, string>, failMissing: bool, s: State, t: State)
    requires AllDoneIn(env, staged, t, StagedOf(env, staged, boot.resources))
    requires AllSettle(env, StagedOf(env, staged, boot.resources))
    requires Within(t, boot.resources) && t.generation == boot.generation
    requires Skippable(env, staged, failMissing, boot.resources)
    requires InstallCredentials(env, boot, staged, s).error.None?
    ensures Apply(env, boot, staged, failMissing, true, t) == (Ok(true), t)
  {
    CredentialsAgain(env, boot, staged, s, t);
    PlansNothing(env, staged, t, failMissing, StagedOf(env, staged, boot.resources));
    PlanSkips(env, staged, t, failMissing, boot.resources);
    assert Retained(boot, t) == t;
    ApplyOfStable(env, boot, staged, failMissing, t, PlanAll(env, staged, t, failMissing, boot.resources));
  }

  lemma SuccessNeedsCredentials(env: Env, boot: Bootstrap, staged: map<Path, string>, failMissing: bool,
                                portsFree: bool, s: State)
    requires Apply(env, boot, staged, failMissing, portsFree, s).0 == Ok(true)
    ensures portsFree && InstallCredentials(env, boot, staged, Retained(boot, s)).error.None?
  {
  }

  /** If what is there settles, a second application succeeds and changes nothing: neither the files nor
      the records. */
  lemma ApplyIsStable(env: Env, boot: Bootstrap, staged: map<Path, string>, failMissing: bool, portsFree: bool,
                      s: State)
    requires Separate(env, boot.resources) && AllSettle(env, StagedOf(env, staged, boot.resources))
    requires Apply(env, boot, staged, failMissing, portsFree, s).0 == Ok(true)
    ensures var t := Apply(env, boot, staged, failMissing, portsFree, s).1;
      Apply(env, boot, staged, failMissing, portsFree, t) == (Ok(true), t)
  {
    var t := Apply(env, boot, staged, failMissing, portsFree, s).1;
    SuccessMeansDone(env, boot, staged, failMissing, portsFree, s);
    SuccessNeedsCredentials(env, boot, staged, failMissing, portsFree, s);
    StableFromDone(env, boot, staged, failMissing, Retained(boot, s), t);
  }

  /** An optional resource that is not there and was never applied keeps a successful application from
      being ready; and if what is there settles, applying it again succeeds and changes nothing. */
  lemma OptionalNeverReady(env: Env, boot: Bootstrap, staged: map<Path, string>, portsFree: bool, s: State, r: Resource)
    requires Separate(env, boot.resources)
    requires Apply(env, boot, staged, false, portsFree, s).0 == Ok(true)
    requires r in boot.resources && Source(env, staged, r) == Ok(None) && r.id !in s.applied
    ensures var t := Apply(env, boot, staged, false, portsFree, s).1;
      && Ready(env, boot, t) != Ok(true)
      && (AllSettle(env, StagedOf(env, staged, boot.resources)) ==>
            Apply(env, boot, staged, false, portsFree, t) == (Ok(true), t))
  {
    ApplyMakesReady(env, boot, staged, false, portsFree, s);
    assert !WillBeReady(env, staged, s, r);
    if AllSettle(env, StagedOf(env, staged, boot.resources)) {
      ApplyIsStable(env, boot, staged, false, portsFree, s);
    }
  }

  // ---------------------------------------------------------------- mutable targets

  /** Every planned update of this resource keeps its content, and every other one keeps away from it. */
  ghost predicate KeepsContent(env: Env, planned: seq<Planned>, r: Resource) {
    forall p :: p in planned ==>
      if p.r == r then !p.update.WriteContent? else p.r.target != r.target && env.tmp(p.r.target) != r.target
  }

  ghost predicate SameContent(s: State, t: State, r: Resource) {
    r.target in s.fs && r.target in t.fs && s.fs[r.target].content == t.fs[r.target].content
  }

  lemma {:induction false} AllKeepContent(env: Env, planned: seq<Planned>, s: State, r: Resource)
    requires KeepsContent(env, planned, r) && r.target in s.fs
    ensures SameContent(s, ApplyAll(env, planned, s).state, r)
  {
    if planned != [] {
      var n := |planned| - 1;
      AllKeepContent(env, planned[..n], s, r);
      assert planned[n] in planned;
    }
  }

  lemma {:induction false} PlanKeepsContent(env: Env, staged: map<Path, string>, s: State, failMissing: bool,
                                            rs: seq<Resource>, r: Resource)
    requires r.mutable && r.id in s.applied && r.target in s.fs
    requires forall q :: q in rs && q != r ==> q.target != r.target && env.tmp(q.target) != r.target
    ensures KeepsContent(env, PlanAll(env, staged, s, failMissing, rs).planned, r)
  {
    if rs != [] {
      var n := |rs| - 1;
      assert forall q :: q in rs[..n] ==> q in rs;
      assert rs[n] in rs;
      PlanKeepsContent(env, staged, s, failMissing, rs[..n], r);
    }
  }

  lemma InstallKeepsOthers(env: Env, keys: (Resource, string), host: (Resource, string), s: State, r: Resource)
    requires Apart(env, keys.0, r) && Apart(env, host.0, r)
    ensures Agree(s, InstallBoth(env, keys, host, s).state, r)
  {
  }

  lemma CredentialsKeepOthers(env: Env, boot: Bootstrap, staged: map<Path, string>, s: State, r: Resource)
    requires forall q :: q in boot.resources && q != r ==> Apart(env, q, r)
    requires r.mutable || Source(env, staged, r) == Ok(None)
    ensures Agree(s, InstallCredentials(env, boot, staged, s).state, r)
  {
    var keys := Credential(env, boot, staged, KEYS_ID, env.keysTarget);
    var host := Credential(env, boot, staged, HOST_KEY_ID, env.hostKeyTarget);
    if keys.Ok? && keys.value.Some? && host.Ok? && host.value.Some? {
      InstallKeepsOthers(env, keys.value.value, host.value.value, s, r);
    }
  }

  lemma OutcomeFiles(env: Env, boot: Bootstrap, staged: map<Path, string>, failMissing: bool, portsFree: bool, s: State)
    ensures var start := InstallCredentials(env, boot, staged, Retained(boot, s)).state;
      var t := Apply(env, boot, staged, failMissing, portsFree, s).1;
      || t.fs == start.fs
      || t.fs == ApplyAll(env, PlanAll(env, staged, start, failMissing, boot.resources).planned, start).state.fs
  {
  }

  /** A mutable resource that has been applied before and whose target exists keeps its content, whatever
      the outcome of the application. */
  lemma MutableContentKept(env: Env, boot: Bootstrap, staged: map<Path, string>, failMissing: bool, portsFree: bool,
                           s: State, r: Resource)
    requires Separate(env, boot.resources) && r in boot.resources
    requires r.mutable && r.id in s.applied && r.target in s.fs
    ensures SameContent(s, Apply(env, boot, staged, failMissing, portsFree, s).1, r)
  {
    forall q | q in boot.resources && q != r ensures Apart(env, q, r) {
      SeparateApart(env, boot.resources, q, r);
    }
    var kept := Retained(boot, s);
    CredentialsKeepOthers(env, boot, staged, kept, r);
    var start := InstallCredentials(env, boot, staged, kept).state;
    PlanKeepsContent(env, staged, start, failMissing, boot.resources, r);
    OutcomeFiles(env, boot, staged, failMissing, portsFree, s);
    AllKeepContent(env, PlanAll(env, staged, start, failMissing, boot.resources).planned, start, r);
  }

  // ---------------------------------------------------------------- missing resources

  lemma {:induction false} MissingIsNoticed(env: Env, staged: map<Path, string>, s: State, failMissing: bool,
                                            rs: seq<Resource>, r: Resource)
    requires r in rs && Source(env, staged, r) == Ok(None) && (failMissing || r.required)
    ensures var plan := PlanAll(env, staged, s, failMissing, rs); plan.error.Some? || plan.missing != []
  {
    var n := |rs| - 1;
    if rs[n] != r {
      MissingIsNoticed(env, staged, s, failMissing, rs[..n], r);
    }
  }

  /** A path that no credential is installed at or through. */
  ghost predicate NotCredential(env: Env, path: Path) {
    && path != env.keysTarget && path != env.hostKeyTarget
    && path != env.tmp(env.keysTarget) && path != env.tmp(env.hostKeyTarget)
  }

  ghost predicate SameFile(s: Fs, t: Fs, path: Path) {
    (path in s <==> path in t) && (path in s ==> s[path] == t[path])
  }

  lemma InstallKeepsFiles(env: Env, keys: (Resource, string), host: (Resource, string), s: State, path: Path)
    requires keys.0.target == env.keysTarget && host.0.target == env.hostKeyTarget && NotCredential(env, path)
    ensures SameFile(s.fs, InstallBoth(env, keys, host, s).state.fs, path)
    ensures InstallBoth(env, keys, host, s).state.generation == s.generation
  {
  }

  lemma CredentialsKeepFiles(env: Env, boot: Bootstrap, staged: map<Path, string>, s: State, path: Path)
    ensures var t := InstallCredentials(env, boot, staged, s).state;
      t.generation == s.generation && (NotCredential(env, path) ==> SameFile(s.fs, t.fs, path))
  {
    var keys := Credential(env, boot, staged, KEYS_ID, env.keysTarget);
    var host := Credential(env, boot, staged, HOST_KEY_ID, env.hostKeyTarget);
    if keys.Ok? && keys.value.Some? && host.Ok? && host.value.Some? && NotCredential(env, path) {
      InstallKeepsFiles(env, keys.value.value, host.value.value, s, path);
    }
  }

  /** While a required resource is missing nothing is applied but the management credentials: every
      other file stays as it is, and so does the recorded generation. */
  lemma MissingWritesNothing(env: Env, boot: Bootstrap, staged: map<Path, string>, failMissing: bool, portsFree: bool,
                             s: State, r: Resource, path: Path)
    requires r in boot.resources && Source(env, staged, r) == Ok(None) && (failMissing || r.required)
    ensures var (result, t) := Apply(env, boot, staged, failMissing, portsFree, s);
      && result != Ok(true) && t == InstallCredentials(env, boot, staged, Retained(boot, s)).state
      && t.generation == s.generation && (NotCredential(env, path) ==> SameFile(s.fs, t.fs, path))
  {
    var start := InstallCredentials(env, boot, staged, Retained(boot, s)).state;
    CredentialsKeepFiles(env, boot, staged, Retained(boot, s), path);
    MissingIsNoticed(env, staged, start, failMissing, boot.resources, r);
  }
}
