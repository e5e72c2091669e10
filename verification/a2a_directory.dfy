/**
 The directory that a sync publishes for A2A peers: every port it lists is where an ingress listens that
 leads to that peer, and it lists nothing else.
 */
module A2aDirectory {
  import opened Results
  import opened Ports
  import opened A2aCache
  import opened A2aRuns
  import MeshRouting
  import MeshSchema

  /** The answers that the current sync has published, in order. */
  ghost function Answers(self: string, actions: seq<Action>): seq<Resolved> {
    if actions == [] then []
    else
      var n := |actions| - 1;
      AnswersNext(self, After(self, actions[..n]), actions[n], Answers(self, actions[..n]))
  }

  ghost function AnswersNext(self: string, s: State, a: Action, answers: seq<Resolved>): seq<Resolved> {
    if a.Begin? then []
    else if a.Peer? && ScopedTo(a.visit.peer, self) && Publishes(s, Resolve(s.cache, s.used, a.visit)) then
      answers + [Resolve(s.cache, s.used, a.visit).result.value]
    else answers
  }

  /** How many ports these answers have together. */
  ghost function PortCount(answers: seq<Resolved>): nat {
    if answers == [] then 0 else PortCount(answers[..|answers| - 1]) + |answers[|answers| - 1].ports|
  }

  function ListedFor(directory: map<string, seq<Port>>, name: string): seq<Port> {
    if name in directory then directory[name] else []
  }

  /** The ports that a directory lists for these names, one after the other. */
  function Listed(directory: map<string, seq<Port>>, names: seq<string>): seq<Port> {
    if names == [] then []
    else Listed(directory, names[..|names| - 1]) + ListedFor(directory, names[|names| - 1])
  }

  function Names(answers: seq<Resolved>): (names: seq<string>)
    ensures |names| == |answers| && forall i :: 0 <= i < |names| ==> names[i] == answers[i].id
  {
    seq(|answers|, i requires 0 <= i < |answers| => answers[i].id)
  }

  /** The directory names exactly the published answers, each once and none taken by the mesh directory. */
  ghost predicate NamesExactly(s: State, answers: seq<Resolved>) {
    && Distinct(Names(answers))
    && (forall id :: id in s.directory <==> id in Names(answers))
    && (forall id :: id in Names(answers) ==> id !in s.taken)
  }

  /** Port k that the directory lists for an answer is where an ingress listens, counted from `from`, that
      dials the answer's address and its remote port k. */
  ghost predicate LeadsToPeer(s: State, r: Resolved, from: nat) {
    && r.id in s.directory && |s.directory[r.id]| == |r.ports| && from + |r.ports| <= |s.ingress|
    && forall k :: 0 <= k < |r.ports| ==>
         s.ingress[from + k] == Ingress(s.directory[r.id][k], r.publicIp, r.ports[k].remote, r.references)
  }

  ghost predicate AllLead(s: State, answers: seq<Resolved>) {
    && |s.ingress| == PortCount(answers)
    && forall i :: 0 <= i < |answers| ==> LeadsToPeer(s, answers[i], PortCount(answers[..i]))
  }

  lemma RecordNames(s: State, peer: BundlePeer, step: Step, answers: seq<Resolved>)
    requires NamesExactly(s, answers) && Publishes(s, step)
    ensures NamesExactly(Record(s, peer, step), answers + [step.result.value])
  {
    var r := step.result.value;
    var more := answers + [r];
    assert Names(more) == Names(answers) + [r.id];
  }

  lemma IngressOfAnswer(r: Resolved, k: nat)
    requires k < |r.ports|
    ensures IngressOf(r)[k] == Ingress(Locals(r.ports)[k], r.publicIp, r.ports[k].remote, r.references)
  {
  }

  lemma RecordLeads(s: State, peer: BundlePeer, step: Step, answers: seq<Resolved>, i: nat)
    requires AllLead(s, answers) && NamesExactly(s, answers) && Publishes(s, step) && i <= |answers|
    ensures var more := answers + [step.result.value];
      LeadsToPeer(Record(s, peer, step), more[i], PortCount(more[..i]))
  {
    var r, t := step.result.value, Record(s, peer, step);
    var more := answers + [r];
    assert t.ingress == s.ingress + IngressOf(r) && more[..i] == answers[..i];
    if i == |answers| {
      assert answers[..i] == answers;
      forall k | 0 <= k < |r.ports|
        ensures t.ingress[|s.ingress| + k] == Ingress(t.directory[r.id][k], r.publicIp, r.ports[k].remote, r.references)
      {
        IngressOfAnswer(r, k);
      }
    } else {
      assert answers[i].id in Names(answers) by {
        assert Names(answers)[i] == answers[i].id;
      }
      assert LeadsToPeer(s, answers[i], PortCount(answers[..i]));
    }
  }

  lemma RecordAllLead(s: State, peer: BundlePeer, step: Step, answers: seq<Resolved>)
    requires AllLead(s, answers) && NamesExactly(s, answers) && Publishes(s, step)
    ensures AllLead(Record(s, peer, step), answers + [step.result.value])
  {
    var more := answers + [step.result.value];
    assert more[..|answers|] == answers;
    forall i | 0 <= i < |more| ensures LeadsToPeer(Record(s, peer, step), more[i], PortCount(more[..i])) {
      RecordLeads(s, peer, step, answers, i);
    }
  }

  /** What is not published changes neither the directory nor the ingress routes. */
  lemma UnpublishedStays(s: State, peer: BundlePeer, step: Step)
    requires !Publishes(s, step)
    ensures var t := Record(s, peer, step); t.directory == s.directory && t.ingress == s.ingress && t.taken == s.taken
  {
  }

  lemma NextLeads(self: string, s: State, a: Action, answers: seq<Resolved>)
    requires NamesExactly(s, answers) && AllLead(s, answers)
    ensures var t, more := Next(self, s, a), AnswersNext(self, s, a, answers);
      NamesExactly(t, more) && AllLead(t, more)
  {
    if a.Peer? && ScopedTo(a.visit.peer, self) {
      var step := Resolve(s.cache, s.used, a.visit);
      if Publishes(s, step) {
        RecordNames(s, a.visit.peer, step, answers);
        RecordAllLead(s, a.visit.peer, step, answers);
      } else {
        UnpublishedStays(s, a.visit.peer, step);
        SameLeads(s, Next(self, s, a), answers);
      }
    } else if !a.Begin? {
      SameLeads(s, Next(self, s, a), answers);
    }
  }

  /** In every state of every run the directory names exactly the answers published in the current sync, and
      every port it lists is where an ingress listens that dials the answer's address and the remote port
      at the same place; there are no other ingress routes. */
  lemma {:induction false} DirectoryLeadsToPeers(self: string, actions: seq<Action>)
    ensures NamesExactly(After(self, actions), Answers(self, actions))
    ensures AllLead(After(self, actions), Answers(self, actions))
  {
    if actions != [] {
      var n := |actions| - 1;
      DirectoryLeadsToPeers(self, actions[..n]);
      NextLeads(self, After(self, actions[..n]), actions[n], Answers(self, actions[..n]));
    }
  }

  lemma SameLeads(s: State, t: State, answers: seq<Resolved>)
    requires NamesExactly(s, answers) && AllLead(s, answers)
    requires t.directory == s.directory && t.ingress == s.ingress && t.taken == s.taken
    ensures NamesExactly(t, answers) && AllLead(t, answers)
  {
    forall i | 0 <= i < |answers| ensures LeadsToPeer(t, answers[i], PortCount(answers[..i])) {
      assert LeadsToPeer(s, answers[i], PortCount(answers[..i]));
    }
  }

  lemma ListedSlice(s: State, r: Resolved, from: nat)
    requires LeadsToPeer(s, r, from)
    ensures s.directory[r.id] == Published(s.ingress)[from..from + |r.ports|]
  {
    forall k | 0 <= k < |r.ports| ensures s.directory[r.id][k] == Published(s.ingress)[from..from + |r.ports|][k] {
      assert s.ingress[from + k].local == s.directory[r.id][k];
    }
  }

  lemma ListedNext(directory: map<string, seq<Port>>, names: seq<string>, id: string)
    ensures Listed(directory, names + [id]) == Listed(directory, names) + ListedFor(directory, id)
  {
    assert (names + [id])[..|names|] == names;
  }

  /** An entry for another name changes nothing. */
  lemma {:induction false} ListedStays(directory: map<string, seq<Port>>, names: seq<string>, id: string,
                                       ports: seq<Port>)
    requires id !in names
    ensures Listed(directory[id := ports], names) == Listed(directory, names)
    decreases names
  {
    if names != [] {
      var n := |names| - 1;
      assert names[n] in names && forall name :: name in names[..n] ==> name in names;
      ListedStays(directory, names[..n], id, ports);
    }
  }

  lemma RecordLists(s: State, peer: BundlePeer, step: Step, names: seq<string>)
    requires Publishes(s, step) && step.result.value.id !in names
    requires Listed(s.directory, names) == Published(s.ingress)
    ensures var t := Record(s, peer, step);
      Listed(t.directory, names + [step.result.value.id]) == Published(t.ingress)
  {
    var r, t := step.result.value, Record(s, peer, step);
    RecordPublishes(s, peer, step);
    ListedNext(t.directory, names, r.id);
    ListedStays(s.directory, names, r.id, Locals(r.ports));
  }

  ghost predicate ListsPublished(s: State, answers: seq<Resolved>) {
    Listed(s.directory, Names(answers)) == Published(s.ingress)
  }

  lemma NextLists(self: string, s: State, a: Action, answers: seq<Resolved>)
    requires NamesExactly(s, answers) && ListsPublished(s, answers)
    ensures ListsPublished(Next(self, s, a), AnswersNext(self, s, a, answers))
  {
    if a.Peer? && ScopedTo(a.visit.peer, self) {
      var step := Resolve(s.cache, s.used, a.visit);
      if Publishes(s, step) {
        NamesNext(answers, step.result.value);
        RecordLists(s, a.visit.peer, step, Names(answers));
      } else {
        UnpublishedStays(s, a.visit.peer, step);
      }
    }
  }

  lemma NamesNext(answers: seq<Resolved>, r: Resolved)
    ensures Names(answers + [r]) == Names(answers) + [r.id]
  {
  }

  /** The ports that the directory lists for all its names, in the order of publication, are exactly the
      published local ports. */
  lemma {:induction false} DirectoryListsPublished(self: string, actions: seq<Action>)
    ensures Listed(After(self, actions).directory, Names(Answers(self, actions)))
         == Published(After(self, actions).ingress)
  {
    if actions != [] {
      var n := |actions| - 1;
      DirectoryLeadsToPeers(self, actions[..n]);
      DirectoryListsPublished(self, actions[..n]);
      NextLists(self, After(self, actions[..n]), actions[n], Answers(self, actions[..n]));
    }
  }

  /** So the listed ports are pairwise distinct, over all names, exactly when no visit of the current sync
      has served a duplicate. */
  lemma DirectoryPortsApart(self: string, actions: seq<Action>)
    ensures Distinct(Listed(After(self, actions).directory, Names(Answers(self, actions))))
       <==> !ServedDuplicate(self, actions)
  {
    DirectoryListsPublished(self, actions);
    PublishedPortsApart(self, actions);
  }

  lemma ListedIsPublished(s: State, answers: seq<Resolved>, id: string, p: Port)
    requires NamesExactly(s, answers) && AllLead(s, answers) && id in s.directory && p in s.directory[id]
    ensures p in Published(s.ingress)
  {
    var i :| 0 <= i < |answers| && Names(answers)[i] == id;
    assert LeadsToPeer(s, answers[i], PortCount(answers[..i]));
    ListedSlice(s, answers[i], PortCount(answers[..i]));
  }

  /** And none of them is an application port, a mesh reservation or a port of the mesh directory. */
  lemma DirectoryAvoidsMesh(self: string, actions: seq<Action>, i: nat, ownPorts: seq<Port>,
                            registry: MeshSchema.Registry, directory: MeshRouting.ServiceDirectory, id: string, p: Port)
    requires i < |actions|
    requires actions[i] == Begin(SyncReserved(ownPorts, registry, directory), directory.Keys)
    requires forall k :: i < k < |actions| ==> actions[k].Peer? || actions[k].End?
    requires id in After(self, actions).directory && p in After(self, actions).directory[id]
    ensures p !in ownPorts && (forall e :: e in registry ==> registry[e] != p)
    ensures forall name, d :: name in directory && d in directory[name] ==> d.port != p
  {
    DirectoryLeadsToPeers(self, actions);
    ListedIsPublished(After(self, actions), Answers(self, actions), id, p);
    SyncAvoidsMesh(self, actions, i, ownPorts, registry, directory);
  }

  // ---------------------------------------------------------------- what is behind an entry

  ghost predicate FromCard(r: Resolved, a: Action) {
    && a.Peer? && a.visit.fetch.Ok?
    && r.publicIp == a.visit.fetch.value.publicIp && r.references == a.visit.fetch.value.references
    && Remotes(r.ports) == SortedUnique(a.visit.fetch.value.ports)
  }

  lemma NewAnswerFromCard(self: string, actions: seq<Action>, before: seq<Action>, v: Visit, r: Resolved)
    returns (j: nat)
    requires actions == before + [Peer(v)] && ScopedTo(v.peer, self)
    requires Resolve(After(self, before).cache, After(self, before).used, v).result == Ok(r)
    ensures j < |actions| && FromCard(r, actions[j])
  {
    j := AnswerOrigin(self, before, v);
  }

  lemma AnswerIsNewOrOld(self: string, s: State, a: Action, answers: seq<Resolved>, i: nat)
    requires i < |AnswersNext(self, s, a, answers)|
    ensures var r := AnswersNext(self, s, a, answers)[i];
      || (i < |answers| && r == answers[i])
      || (a.Peer? && ScopedTo(a.visit.peer, self) && Resolve(s.cache, s.used, a.visit).result == Ok(r))
  {
  }

  /** Every published answer comes from a card that was fetched for its peer: the addresses and ports that
      the directory leads to are those the card declared. */
  lemma {:induction false} AnswerFromCard(self: string, actions: seq<Action>, i: nat) returns (j: nat)
    requires i < |Answers(self, actions)|
    ensures j < |actions| && FromCard(Answers(self, actions)[i], actions[j])
    decreases |actions|
  {
    var n := |actions| - 1;
    var before, a := actions[..n], actions[n];
    var s, answers := After(self, before), Answers(self, before);
    var r := AnswersNext(self, s, a, answers)[i];
    AnswerIsNewOrOld(self, s, a, answers, i);
    if i < |answers| && r == answers[i] {
      j := AnswerFromCard(self, before, i);
      assert actions[j] == before[j];
    } else {
      assert actions == before + [a];
      j := NewAnswerFromCard(self, actions, before, a.visit, r);
    }
  }
}
