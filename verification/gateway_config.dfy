/** The gateway's configuration, its startup checks, and the audience its tokens name. */
module GatewayConfig {
  import opened Results
  import opened Ports
  import Text

  const CONFIG_SCHEMA := "confidential-agent/gateway-config/v1"

  datatype Identity = Identity(publicKey: string, privateKey: string)

  datatype ClientRoute = ClientRoute(listenPort: Port, tngPort: Port, targetService: string, targetPort: Port)

  datatype ServerRoute = ServerRoute(listenPort: Port, upstreamPort: Port, protocol: string)

  datatype Config = Config(
    schema: string,
    serviceId: string,
    identity: Option<Identity>,
    trusted: map<string, string>,
    clientRoutes: seq<ClientRoute>,
    serverRoutes: seq<ServerRoute>)

  datatype ConfigError =
    | BadSchema | BlankServiceId | BadIdentityKey | IdentityRequired
    | DuplicateListenPort(port: Port) | ListenCollides(port: Port)
    | BlankTarget | BadProtocol | BlankTrustedId | BadTrustedKey

  ghost predicate ClientListensDistinct(routes: seq<ClientRoute>) {
    forall i, j :: 0 <= i < j < |routes| ==> routes[i].listenPort != routes[j].listenPort
  }

  ghost predicate ServerListensDistinct(routes: seq<ServerRoute>) {
    forall i, j :: 0 <= i < j < |routes| ==> routes[i].listenPort != routes[j].listenPort
  }

  /** Distinct client listeners, none equal to the hidden port behind it; likewise for servers. A
      client and a server listener are not compared with each other. */
  ghost predicate PortChecks(c: Config) {
    && ClientListensDistinct(c.clientRoutes)
    && (forall r :: r in c.clientRoutes ==> r.listenPort != r.tngPort)
    && ServerListensDistinct(c.serverRoutes)
    && (forall r :: r in c.serverRoutes ==> r.listenPort != r.upstreamPort)
    && (forall r :: r in c.serverRoutes ==> r.protocol in ["raw", "mcp"])
  }

  /** Everything else that is checked; `keyOk` stands for the base64url decoding of 32-byte keys. */
  ghost predicate IdentityChecks(c: Config, keyOk: string -> bool) {
    && c.schema == CONFIG_SCHEMA && !Text.IsBlank(c.serviceId)
    && (c.identity.Some? ==> keyOk(c.identity.value.privateKey) && keyOk(c.identity.value.publicKey))
    && (c.identity.None? ==> c.clientRoutes == [])
    && (forall r :: r in c.clientRoutes ==> !Text.IsBlank(r.targetService))
    && (forall id :: id in c.trusted ==> !Text.IsBlank(id) && keyOk(c.trusted[id]))
  }

  method ValidateClientRoutes(routes: seq<ClientRoute>) returns (e: Option<ConfigError>)
    ensures e.None? <==>
      && ClientListensDistinct(routes)
      && (forall r :: r in routes ==> r.listenPort != r.tngPort && !Text.IsBlank(r.targetService))
  {
    var listenPorts: set<Port> := {};
    for i := 0 to |routes|
      invariant listenPorts == set k | 0 <= k < i :: routes[k].listenPort
      invariant forall k, l :: 0 <= k < l < i ==> routes[k].listenPort != routes[l].listenPort
      invariant forall k :: 0 <= k < i ==>
        routes[k].listenPort != routes[k].tngPort && !Text.IsBlank(routes[k].targetService)
    {
      var r := routes[i];
      if r.listenPort in listenPorts {
        return Some(DuplicateListenPort(r.listenPort));
      }
      listenPorts := listenPorts + {r.listenPort};
      if r.listenPort == r.tngPort {
        return Some(ListenCollides(r.listenPort));
      }
      if Text.IsBlank(r.targetService) {
        return Some(BlankTarget);
      }
    }
    e := None;
  }

  method ValidateServerRoutes(routes: seq<ServerRoute>) returns (e: Option<ConfigError>)
    ensures e.None? <==>
      && ServerListensDistinct(routes)
      && (forall r :: r in routes ==> r.listenPort != r.upstreamPort && r.protocol in ["raw", "mcp"])
  {
    var listenPorts: set<Port> := {};
    for i := 0 to |routes|
      invariant listenPorts == set k | 0 <= k < i :: routes[k].listenPort
      invariant forall k, l :: 0 <= k < l < i ==> routes[k].listenPort != routes[l].listenPort
      invariant forall k :: 0 <= k < i ==>
        routes[k].listenPort != routes[k].upstreamPort && routes[k].protocol in ["raw", "mcp"]
    {
      var r := routes[i];
      if r.listenPort in listenPorts {
        return Some(DuplicateListenPort(r.listenPort));
      }
      listenPorts := listenPorts + {r.listenPort};
      if r.listenPort == r.upstreamPort {
        return Some(ListenCollides(r.listenPort));
      }
      if r.protocol != "raw" && r.protocol != "mcp" {
        return Some(BadProtocol);
      }
    }
    e := None;
  }

  /** `GatewayConfig::validate`. */
  method Validate(c: Config, keyOk: string -> bool) returns (e: Option<ConfigError>)
    ensures e.None? <==> PortChecks(c) && IdentityChecks(c, keyOk)
  {
    if c.schema != CONFIG_SCHEMA {
      return Some(BadSchema);
    }
    if Text.IsBlank(c.serviceId) {
      return Some(BlankServiceId);
    }
    if c.identity.Some? {
      if !keyOk(c.identity.value.privateKey) || !keyOk(c.identity.value.publicKey) {
        return Some(BadIdentityKey);
      }
    } else if c.clientRoutes != [] {
      return Some(IdentityRequired);
    }
    e := ValidateClientRoutes(c.clientRoutes);
    if e.Some? {
      return;
    }
    e := ValidateServerRoutes(c.serverRoutes);
    if e.Some? {
      return;
    }
    var todo := c.trusted.Keys;
    while todo != {}
      invariant todo <= c.trusted.Keys
      invariant forall id :: id in c.trusted && id !in todo ==> !Text.IsBlank(id) && keyOk(c.trusted[id])
    {
      var id :| id in todo;
      if Text.IsBlank(id) {
        return Some(BlankTrustedId);
      }
      if !keyOk(c.trusted[id]) {
        return Some(BadTrustedKey);
      }
      todo := todo - {id};
    }
    e := None;
  }

  // ---------------------------------------------------------------- audience

  /** The audience a service token names: the target service and its port. */
  function Audience(service: string, port: Port): string {
    "cai-gateway:" + service + ":" + Text.Decimal(port)
  }

  /** A digit string never holds the colon that a longer prefix would need there. */
  lemma ColonMoves(a: string, m: string, b: string, n: string)
    requires Text.AllDigits(m) && |a| < |b|
    ensures a + ":" + m != b + ":" + n
  {
    var s, t := a + ":" + m, b + ":" + n;
    assert t[|b|] == ':';
    if |s| > |b| {
      assert s[|b|] == m[|b| - |a| - 1];
    }
  }

  /** Two texts ending in a colon and digits agree only if the parts before and after it do. */
  lemma LastColonSplits(a: string, m: string, b: string, n: string)
    requires Text.AllDigits(m) && Text.AllDigits(n)
    ensures a + ":" + m == b + ":" + n ==> a == b && m == n
  {
    if |a| < |b| {
      ColonMoves(a, m, b, n);
    } else if |b| < |a| {
      ColonMoves(b, n, a, m);
    } else {
      assert (a + ":" + m)[..|a|] == a && (b + ":" + n)[..|b|] == b;
      assert (a + ":" + m)[|a| + 1..] == m && (b + ":" + n)[|b| + 1..] == n;
    }
  }

  /** No two targets share an audience, whatever characters a service id contains. */
  lemma AudienceInjective(s: string, p: Port, t: string, q: Port)
    ensures Audience(s, p) == Audience(t, q) <==> (s == t && p == q)
  {
    if Audience(s, p) == Audience(t, q) {
      LastColonSplits("cai-gateway:" + s, Text.Decimal(p), "cai-gateway:" + t, Text.Decimal(q));
      assert ("cai-gateway:" + s)[12..] == s && ("cai-gateway:" + t)[12..] == t;
      Text.DecimalInjective(p, q);
    }
  }
}
