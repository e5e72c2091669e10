/**
 The security group rendered for a guest, and its agreement with the routes that other guests plan.
 */
module Firewall {
  import opened Results
  import opened Ports
  import opened MeshSchema
  import opened JsonValue
  import opened MeshPlanner
  import MeshRouting
  import opened Ipv4
  import Text

  const CONTROL_PORT: Port := 8006
  const SSH_PORT: Port := 22

  datatype Role = Operator | PeerRole

  datatype Scope = Control | Status | Ssh | AgentCard | Connect | Mesh

  datatype Peering = Peering(role: Role, cidr: string, scope: seq<Scope>)

  datatype Options = Options(peerings: seq<Peering>, managed: seq<string>)

  /** The part of an agent's specification that decides its security group. */
  datatype Service = Service(debugImage: bool, ssh: bool, ports: seq<Port>, connect: seq<ConnectPort>)

  datatype Rule = Rule(name: string, port: Port, cidr: string)

  // ---------------------------------------------------------------- CIDR lists

  /** An empty scope list stands for the role's default. */
  function EffectiveScope(e: Peering): set<Scope> {
    if e.scope != [] then Elements(e.scope)
    else
      match e.role
      case Operator => {Control, Status, Ssh, AgentCard, Connect}
      case PeerRole => {AgentCard, Connect}
  }

  ghost predicate Ascending(s: seq<string>) {
    forall i, j :: 0 <= i < j < |s| ==> KeyLess(s[i], s[j])
  }

  /** Insertion into a `BTreeSet` listed in order. */
  function InsertText(c: string, s: seq<string>): (r: seq<string>)
    ensures forall x :: x in r <==> x in s || x == c
  {
    if s == [] then [c]
    else if KeyLess(c, s[0]) then [c] + s
    else if c == s[0] then s
    else [s[0]] + InsertText(c, s[1..])
  }

  function TextSet(s: seq<string>): (r: seq<string>)
    ensures forall x :: x in r <==> x in s
  {
    if s == [] then [] else InsertText(s[0], TextSet(s[1..]))
  }

  function ScopedCidrs(peerings: seq<Peering>, scope: Scope): (r: seq<string>)
    ensures forall c :: c in r <==> exists e :: e in peerings && scope in EffectiveScope(e) && e.cidr == c
  {
    if peerings == [] then []
    else
      var rest := ScopedCidrs(peerings[1..], scope);
      assert peerings == [peerings[0]] + peerings[1..];
      if scope in EffectiveScope(peerings[0]) then [peerings[0].cidr] + rest else rest
  }

  function CidrsForScope(peerings: seq<Peering>, scope: Scope): (r: seq<string>)
    ensures forall c :: c in r <==> exists e :: e in peerings && scope in EffectiveScope(e) && e.cidr == c
  {
    TextSet(ScopedCidrs(peerings, scope))
  }

  /** Who may reach a connect port. */
  function ConnectCidrs(options: Options): seq<string> {
    TextSet(CidrsForScope(options.peerings, Connect) + options.managed)
  }

  /** Who may reach any other service port. */
  function MeshCidrs(options: Options): seq<string> {
    TextSet(options.managed + CidrsForScope(options.peerings, Mesh))
  }

  // ---------------------------------------------------------------- rules

  function Sanitized(s: string): string {
    if s == [] then []
    else
      var c := s[0];
      [if 'a' <= c <= 'z' || 'A' <= c <= 'Z' || '0' <= c <= '9' then c else '_'] + Sanitized(s[1..])
  }

  function RuleFor(prefix: string, port: Port, cidr: string): Rule {
    Rule(prefix + Text.Decimal(port) + "_peer_" + Sanitized(cidr), port, cidr)
  }

  function PortRules(prefix: string, port: Port, cidrs: seq<string>): seq<Rule> {
    if cidrs == [] then []
    else PortRules(prefix, port, cidrs[..|cidrs| - 1]) + [RuleFor(prefix, port, cidrs[|cidrs| - 1])]
  }

  function PortsRules(prefix: string, ports: seq<Port>, cidrs: seq<string>): seq<Rule> {
    if ports == [] then []
    else PortsRules(prefix, ports[..|ports| - 1], cidrs) + PortRules(prefix, ports[|ports| - 1], cidrs)
  }

  function ConnectPortList(connect: seq<ConnectPort>): (r: seq<Port>)
    ensures forall p :: p in r <==> exists cp :: cp in connect && cp.port == p
  {
    if connect == [] then []
    else
      assert connect == connect[..|connect| - 1] + [connect[|connect| - 1]];
      ConnectPortList(connect[..|connect| - 1]) + [connect[|connect| - 1].port]
  }

  function MeshPorts(service: Service): seq<Port> {
    MeshRouting.ConfidentialPorts(service.ports, set cp | cp in service.connect :: cp.port)
  }

  function ManagementRules(service: Service, peerings: seq<Peering>): seq<Rule> {
    PortRules("control_", CONTROL_PORT, CidrsForScope(peerings, Control))
    + PortRules("status_", DAEMON_STATUS_PORT, CidrsForScope(peerings, Status))
    + PortRules("agent_card_", AGENT_CARD_PORT, CidrsForScope(peerings, AgentCard))
    + (if service.debugImage || service.ssh then PortRules("ssh_", SSH_PORT, CidrsForScope(peerings, Ssh)) else [])
  }

  function Rules(service: Service, options: Options): seq<Rule> {
    ManagementRules(service, options.peerings)
    + PortsRules("connect_", ConnectPortList(service.connect), ConnectCidrs(options))
    + PortsRules("mesh_", MeshPorts(service), MeshCidrs(options))
  }

  method PushPortRules(prefix: string, port: Port, cidrs: seq<string>, rules: seq<Rule>) returns (r: seq<Rule>)
    ensures r == rules + PortRules(prefix, port, cidrs)
  {
    r := rules;
    for i := 0 to |cidrs|
      invariant r == rules + PortRules(prefix, port, cidrs[..i])
    {
      assert cidrs[..i + 1][..i] == cidrs[..i];
      r := r + [RuleFor(prefix, port, cidrs[i])];
    }
    assert cidrs[..|cidrs|] == cidrs;
  }

  lemma NextConnectRules(connect: seq<ConnectPort>, i: nat, cidrs: seq<string>)
    requires i < |connect|
    ensures PortsRules("connect_", ConnectPortList(connect[..i + 1]), cidrs)
         == PortsRules("connect_", ConnectPortList(connect[..i]), cidrs) + PortRules("connect_", connect[i].port, cidrs)
  {
    var before, port := ConnectPortList(connect[..i]), connect[i].port;
    assert connect[..i + 1][..i] == connect[..i];
    assert (before + [port])[..|before|] == before;
  }

  /** The loop over connect ports; the CIDR list is built anew for each. */
  method PushConnectRules(connect: seq<ConnectPort>, options: Options, rules: seq<Rule>) returns (r: seq<Rule>)
    ensures r == rules + PortsRules("connect_", ConnectPortList(connect), ConnectCidrs(options))
  {
    r := rules;
    ghost var done: seq<Rule> := [];
    for i := 0 to |connect|
      invariant done == PortsRules("connect_", ConnectPortList(connect[..i]), ConnectCidrs(options))
      invariant r == rules + done
    {
      var cidrs := ConnectCidrs(options);
      NextConnectRules(connect, i, cidrs);
      r := PushPortRules("connect_", connect[i].port, cidrs, r);
      done := done + PortRules("connect_", connect[i].port, cidrs);
    }
    assert connect[..|connect|] == connect && ConnectPortList(connect[..|connect|]) == ConnectPortList(connect);
  }

  method PushMeshRules(ports: seq<Port>, cidrs: seq<string>, rules: seq<Rule>) returns (r: seq<Rule>)
    ensures r == rules + PortsRules("mesh_", ports, cidrs)
  {
    r := rules;
    for i := 0 to |ports|
      invariant r == rules + PortsRules("mesh_", ports[..i], cidrs)
    {
      assert ports[..i + 1][..i] == ports[..i];
      r := PushPortRules("mesh_", ports[i], cidrs, r);
    }
    assert ports[..|ports|] == ports;
  }

  method PushManagementRules(service: Service, peerings: seq<Peering>) returns (rules: seq<Rule>)
    ensures rules == ManagementRules(service, peerings)
  {
    ghost var a := PortRules("control_", CONTROL_PORT, CidrsForScope(peerings, Control));
    ghost var b := PortRules("status_", DAEMON_STATUS_PORT, CidrsForScope(peerings, Status));
    ghost var c := PortRules("agent_card_", AGENT_CARD_PORT, CidrsForScope(peerings, AgentCard));
    rules := PushPortRules("control_", CONTROL_PORT, CidrsForScope(peerings, Control), []);
    assert rules == a;
    rules := PushPortRules("status_", DAEMON_STATUS_PORT, CidrsForScope(peerings, Status), rules);
    assert rules == a + b;
    rules := PushPortRules("agent_card_", AGENT_CARD_PORT, CidrsForScope(peerings, AgentCard), rules);
    assert rules == a + b + c;
    if service.debugImage || service.ssh {
      rules := PushPortRules("ssh_", SSH_PORT, CidrsForScope(peerings, Ssh), rules);
    } else {
      assert a + b + c + [] == rules;
    }
  }

  /** `security_group_rules`. */
  method SecurityGroupRules(service: Service, options: Options) returns (rules: seq<Rule>)
    ensures rules == Rules(service, options)
  {
    rules := PushManagementRules(service, options.peerings);
    rules := PushConnectRules(service.connect, options, rules);
    rules := PushMeshRules(MeshPorts(service), MeshCidrs(options), rules);
  }

  /** A rule's name keeps letters and digits of the network and has an underscore for every other character. */
  lemma {:induction false} SanitizedExactly(s: string)
    ensures |Sanitized(s)| == |s|
    ensures forall i :: 0 <= i < |s| ==>
      if ('a' <= s[i] && s[i] <= 'z') || ('A' <= s[i] && s[i] <= 'Z') || ('0' <= s[i] && s[i] <= '9')
      then Sanitized(s)[i] == s[i] else Sanitized(s)[i] == '_'
    decreases |s|
  {
    if s != [] {
      SanitizedExactly(s[1..]);
    }
  }

  lemma RuleNameTells(prefix: string, port: Port, cidr: string)
    ensures RuleFor(prefix, port, cidr).name == prefix + (Text.Decimal(port) + ("_peer_" + Sanitized(cidr)))
    ensures RuleFor(prefix, port, cidr).port == port && RuleFor(prefix, port, cidr).cidr == cidr
  {
  }

  // ---------------------------------------------------------------- who is admitted

  ghost predicate Admits(rules: seq<Rule>, port: Port, cidr: string) {
    exists r :: r in rules && r.port == port && r.cidr == cidr
  }

  ghost predicate InScope(peerings: seq<Peering>, scope: Scope, cidr: string) {
    exists e :: e in peerings && scope in EffectiveScope(e) && e.cidr == cidr
  }

  lemma JoinedAdmit(a: seq<Rule>, b: seq<Rule>, port: Port, cidr: string)
    ensures Admits(a + b, port, cidr) <==> Admits(a, port, cidr) || Admits(b, port, cidr)
  {
    assert forall r :: r in a + b <==> r in a || r in b;
  }

  lemma {:induction false} PortAdmits(prefix: string, own: Port, cidrs: seq<string>, port: Port, cidr: string)
    ensures Admits(PortRules(prefix, own, cidrs), port, cidr) <==> port == own && cidr in cidrs
  {
    if cidrs != [] {
      var n := |cidrs| - 1;
      PortAdmits(prefix, own, cidrs[..n], port, cidr);
      var last := RuleFor(prefix, own, cidrs[n]);
      JoinedAdmit(PortRules(prefix, own, cidrs[..n]), [last], port, cidr);
      assert last in [last];
      assert cidrs == cidrs[..n] + [cidrs[n]];
    }
  }

  lemma {:induction false} PortsAdmit(prefix: string, ports: seq<Port>, cidrs: seq<string>, port: Port, cidr: string)
    ensures Admits(PortsRules(prefix, ports, cidrs), port, cidr) <==> port in ports && cidr in cidrs
  {
    if ports != [] {
      var n := |ports| - 1;
      PortsAdmit(prefix, ports[..n], cidrs, port, cidr);
      PortAdmits(prefix, ports[n], cidrs, port, cidr);
      JoinedAdmit(PortsRules(prefix, ports[..n], cidrs), PortRules(prefix, ports[n], cidrs), port, cidr);
      assert ports == ports[..n] + [ports[n]];
    }
  }

  /** A management port admits exactly the networks of its scope, SSH only on images that have it. */
  ghost predicate ManagementAdmits(service: Service, peerings: seq<Peering>, port: Port, cidr: string) {
    || (port == CONTROL_PORT && InScope(peerings, Control, cidr))
    || (port == DAEMON_STATUS_PORT && InScope(peerings, Status, cidr))
    || (port == AGENT_CARD_PORT && InScope(peerings, AgentCard, cidr))
    || (port == SSH_PORT && (service.debugImage || service.ssh) && InScope(peerings, Ssh, cidr))
  }

  lemma ManagementExactly(service: Service, peerings: seq<Peering>, port: Port, cidr: string)
    ensures Admits(ManagementRules(service, peerings), port, cidr) <==> ManagementAdmits(service, peerings, port, cidr)
  {
    var a := PortRules("control_", CONTROL_PORT, CidrsForScope(peerings, Control));
    var b := PortRules("status_", DAEMON_STATUS_PORT, CidrsForScope(peerings, Status));
    var c := PortRules("agent_card_", AGENT_CARD_PORT, CidrsForScope(peerings, AgentCard));
    var d := if service.debugImage || service.ssh then PortRules("ssh_", SSH_PORT, CidrsForScope(peerings, Ssh))
             else [];
    PortAdmits("control_", CONTROL_PORT, CidrsForScope(peerings, Control), port, cidr);
    PortAdmits("status_", DAEMON_STATUS_PORT, CidrsForScope(peerings, Status), port, cidr);
    PortAdmits("agent_card_", AGENT_CARD_PORT, CidrsForScope(peerings, AgentCard), port, cidr);
    PortAdmits("ssh_", SSH_PORT, CidrsForScope(peerings, Ssh), port, cidr);
    JoinedAdmit(a, b, port, cidr);
    JoinedAdmit(a + b, c, port, cidr);
    JoinedAdmit(a + b + c, d, port, cidr);
  }

  /** A network is admitted to a port exactly as a management peer, or to a connect port in connect scope
      or as a managed peer, or to another service port in mesh scope or as a managed peer. */
  lemma AdmitsExactly(service: Service, options: Options, port: Port, cidr: string)
    ensures Admits(Rules(service, options), port, cidr) <==>
      || ManagementAdmits(service, options.peerings, port, cidr)
      || ((exists cp :: cp in service.connect && cp.port == port)
          && (InScope(options.peerings, Connect, cidr) || cidr in options.managed))
      || (port in service.ports && !(exists cp :: cp in service.connect && cp.port == port)
          && (InScope(options.peerings, Mesh, cidr) || cidr in options.managed))
  {
    var a := ManagementRules(service, options.peerings);
    var b := PortsRules("connect_", ConnectPortList(service.connect), ConnectCidrs(options));
    var c := PortsRules("mesh_", MeshPorts(service), MeshCidrs(options));
    ManagementExactly(service, options.peerings, port, cidr);
    PortsAdmit("connect_", ConnectPortList(service.connect), ConnectCidrs(options), port, cidr);
    PortsAdmit("mesh_", MeshPorts(service), MeshCidrs(options), port, cidr);
    JoinedAdmit(a, b, port, cidr);
    JoinedAdmit(a + b, c, port, cidr);
  }

  /** What an entry of its own admits when it lists no scopes: an operator reaches the control, status and
      agent card ports, SSH where there is any, and the connect ports; a peer reaches the agent card and the
      connect ports and nothing else. */
  lemma DefaultScopeAdmits(service: Service, e: Peering, port: Port)
    requires e.scope == []
    ensures Admits(Rules(service, Options([e], [])), port, e.cidr) <==>
      || port == 8089
      || (exists cp :: cp in service.connect && cp.port == port)
      || (e.role == Operator && (port == 8006 || port == 8088))
      || (e.role == Operator && port == 22 && (service.debugImage || service.ssh))
  {
    DefaultScopes(e);
    AdmitsExactly(service, Options([e], []), port, e.cidr);
  }

  /** An entry that lists scopes admits to these and no others. */
  lemma ListedScopeAdmits(service: Service, e: Peering, port: Port)
    requires e.scope != []
    ensures Admits(Rules(service, Options([e], [])), port, e.cidr) <==>
      || (port == 8006 && Control in e.scope) || (port == 8088 && Status in e.scope)
      || (port == 8089 && AgentCard in e.scope)
      || (port == 22 && (service.debugImage || service.ssh) && Ssh in e.scope)
      || (Connect in e.scope && exists cp :: cp in service.connect && cp.port == port)
      || (Mesh in e.scope && port in service.ports && !exists cp :: cp in service.connect && cp.port == port)
  {
    ListedScopes(e);
    AdmitsExactly(service, Options([e], []), port, e.cidr);
  }

  lemma DefaultScopes(e: Peering)
    requires e.scope == []
    ensures InScope([e], AgentCard, e.cidr) && InScope([e], Connect, e.cidr) && !InScope([e], Mesh, e.cidr)
    ensures InScope([e], Control, e.cidr) <==> e.role == Operator
    ensures InScope([e], Status, e.cidr) <==> e.role == Operator
    ensures InScope([e], Ssh, e.cidr) <==> e.role == Operator
  {
    assert e in [e];
  }

  lemma ListedScopes(e: Peering)
    requires e.scope != []
    ensures forall scope :: InScope([e], scope, e.cidr) <==> scope in e.scope
  {
    assert e in [e];
  }

/** Every route a guest plans to a peer is admitted by that peer's rules for the guest's managed
      network: at the address and port where the peer's bundle entry says it listens. */
  lemma PlannedRoutesAdmitted(bundle: MeshBundle, self: string, registry: Registry, r: PeerRoute, service: Service,
                              options: Options, cidr: string)
    requires Plan(bundle, self, registry).Ok? && r in Plan(bundle, self, registry).value.0.peerRoutes
    requires WellFormed(bundle)
    requires var target := Lookup(bundle.services, r.service);
      target.Some? ==> service.ports == target.value.ports && service.connect == target.value.connect
    requires cidr in options.managed
    ensures Lookup(bundle.services, r.service).Some? && Admits(Rules(service, options), r.remote, cidr)
  {
    MeshRouting.PlanShape(bundle, self, registry);
    assert MeshRouting.RouteKnown(r, Peers(bundle.services, self));
    var e: MeshEntry :| e in Peers(bundle.services, self) && r.remote in e.service.ports
      && MeshRouting.RouteFor(r, AsPeer(e), r.remote) && e.service.ReachableHost() == Some(r.host);
    LookupFindsEntry(bundle, e);
    AdmitsExactly(service, options, r.remote, cidr);
  }

  // ---------------------------------------------------------------- addresses

  /** An address is admitted to a port if some rule's network, read by `block`, contains it. */
  ghost predicate AdmitsAddress(rules: seq<Rule>, block: string -> Option<Block>, port: Port, ip: Address) {
    exists r :: r in rules && r.port == port && BlockHolds(block(r.cidr), ip)
  }

  ghost predicate BlockHolds(block: Option<Block>, ip: Address) {
    block.Some? && ValidBlock(block.value) && Contains(block.value, ip)
  }

  /** So a managed guest's packets along a planned route are let through from any address of its managed
      network. */
  lemma PlannedRoutesReach(bundle: MeshBundle, self: string, registry: Registry, r: PeerRoute, service: Service,
                           options: Options, cidr: string, block: string -> Option<Block>, ip: Address)
    requires Plan(bundle, self, registry).Ok? && r in Plan(bundle, self, registry).value.0.peerRoutes
    requires WellFormed(bundle)
    requires var target := Lookup(bundle.services, r.service);
      target.Some? ==> service.ports == target.value.ports && service.connect == target.value.connect
    requires cidr in options.managed && BlockHolds(block(cidr), ip)
    ensures AdmitsAddress(Rules(service, options), block, r.remote, ip)
  {
    PlannedRoutesAdmitted(bundle, self, registry, r, service, options, cidr);
  }

  // ---------------------------------------------------------------- order of the peerings

  lemma {:induction false} InsertTextAscending(c: string, s: seq<string>)
    requires Ascending(s)
    ensures Ascending(InsertText(c, s))
  {
    if s != [] {
      KeyLessTotal(c, s[0]);
      if KeyLess(c, s[0]) {
        var r := [c] + s;
        forall j | 0 < j < |r| ensures KeyLess(c, r[j]) {
          if j > 1 {
            KeyLessTransitive(c, s[0], s[j - 1]);
          }
        }
      } else if c != s[0] {
        InsertTextAscending(c, s[1..]);
        var t := InsertText(c, s[1..]);
        forall j | 0 <= j < |t| ensures KeyLess(s[0], t[j]) {
          assert t[j] in t;
          if t[j] != c {
            var i :| 0 <= i < |s[1..]| && s[1..][i] == t[j];
            assert s[i + 1] == t[j];
          }
        }
      }
    }
  }

  lemma {:induction false} TextSetAscending(s: seq<string>)
    ensures Ascending(TextSet(s))
  {
    if s != [] {
      TextSetAscending(s[1..]);
      InsertTextAscending(s[0], TextSet(s[1..]));
    }
  }

  /** Two ascending lists with the same elements are the same list. */
  lemma {:induction false} AscendingUnique(s: seq<string>, t: seq<string>)
    requires Ascending(s) && Ascending(t) && forall x :: x in s <==> x in t
    ensures s == t
  {
    assert s != [] ==> s[0] in t;
    assert t != [] ==> t[0] in s;
    if s != [] && t != [] {
      FirstsAgree(s, t);
      forall x ensures x in s[1..] <==> x in t[1..] {
        TailHolds(s, x);
        TailHolds(t, x);
      }
      AscendingUnique(s[1..], t[1..]);
    }
  }

  lemma FirstsAgree(s: seq<string>, t: seq<string>)
    requires Ascending(s) && Ascending(t) && s != [] && t != [] && s[0] in t && t[0] in s
    ensures s[0] == t[0]
  {
    KeyLessTotal(s[0], t[0]);
  }

  lemma TailHolds(s: seq<string>, x: string)
    requires Ascending(s) && s != []
    ensures x in s[1..] <==> x in s && x != s[0]
  {
    KeyLessTotal(s[0], s[0]);
    assert s == [s[0]] + s[1..];
    forall j | 0 <= j < |s[1..]| ensures s[1..][j] != s[0] {
      assert s[1..][j] == s[j + 1];
    }
  }

  lemma SameTextSet(s: seq<string>, t: seq<string>)
    requires forall x :: x in s <==> x in t
    ensures TextSet(s) == TextSet(t)
  {
    TextSetAscending(s);
    TextSetAscending(t);
    AscendingUnique(TextSet(s), TextSet(t));
  }

  /** The rendered rules do not depend on the order or repetition of peerings and managed networks. */
  lemma RulesIgnoreOrder(service: Service, a: Options, b: Options)
    requires (forall e :: e in a.peerings <==> e in b.peerings) && (forall c :: c in a.managed <==> c in b.managed)
    ensures Rules(service, a) == Rules(service, b)
  {
    forall scope ensures CidrsForScope(a.peerings, scope) == CidrsForScope(b.peerings, scope) {
      SameTextSet(ScopedCidrs(a.peerings, scope), ScopedCidrs(b.peerings, scope));
    }
    SameTextSet(CidrsForScope(a.peerings, Connect) + a.managed, CidrsForScope(b.peerings, Connect) + b.managed);
    SameTextSet(a.managed + CidrsForScope(a.peerings, Mesh), b.managed + CidrsForScope(b.peerings, Mesh));
  }
}
