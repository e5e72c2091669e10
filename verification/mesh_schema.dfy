/** The mesh bundle a guest receives, and the persistent endpoint registry it keeps. */
module MeshSchema {
  import opened Results
  import opened Ports
  import Text

  datatype EncryptionMode = RatsTls | Ohttp

  datatype ConnectPort = ConnectPort(port: Port, encryption: EncryptionMode)

  datatype MeshService = MeshService(
    phase: string,
    privateIp: Option<string>,
    publicIp: Option<string>,
    ports: seq<Port>,
    connect: seq<ConnectPort>,
    mcpPorts: seq<Port>,
    gatewayPublicKey: Option<string>)
  {
    predicate Active() {
      phase == "active"
    }

    function ConnectPorts(): set<Port> {
      set cp | cp in connect :: cp.port
    }

    /** The public address, or failing that the private one; blank text does not count. */
    function ReachableHost(): Option<string> {
      if publicIp.Some? && !Text.IsBlank(publicIp.value) then publicIp
      else if privateIp.Some? && !Text.IsBlank(privateIp.value) then privateIp
      else None
    }
  }

  datatype MeshEntry = MeshEntry(id: string, service: MeshService)

  /** `services` lists the bundle's map in key order. `samples` are the services with sample reference
      values, `rekor` those with a Rekor entry and whether its payload can be rendered. */
  datatype MeshBundle = MeshBundle(services: seq<MeshEntry>, samples: set<string>, rekor: map<string, bool>)
  {
    /** Services whose reference values can be had; samples come first, and hide a Rekor entry. */
    function Referenced(): set<string> {
      samples + set id | id in rekor && rekor[id]
    }
  }

  /** What being the entry list of a map means: no id twice. */
  ghost predicate WellFormed(bundle: MeshBundle) {
    forall i, j :: 0 <= i < j < |bundle.services| ==> bundle.services[i].id != bundle.services[j].id
  }

  function Lookup(services: seq<MeshEntry>, id: string): (r: Option<MeshService>)
    ensures r.Some? ==> MeshEntry(id, r.value) in services
    ensures r.None? ==> forall e :: e in services ==> e.id != id
  {
    if services == [] then None
    else if services[0].id == id then Some(services[0].service)
    else Lookup(services[1..], id)
  }

  lemma {:induction false} LookupFindsEntry(bundle: MeshBundle, e: MeshEntry)
    requires WellFormed(bundle) && e in bundle.services
    ensures Lookup(bundle.services, e.id) == Some(e.service)
  {
    var r := Lookup(bundle.services, e.id);
    var i :| 0 <= i < |bundle.services| && bundle.services[i] == e;
    var j :| 0 <= j < |bundle.services| && bundle.services[j] == MeshEntry(e.id, r.value);
    assert i < j || j < i || i == j;
  }

  /** Ports of every active service of the bundle, the guest's own included. */
  function ActivePorts(services: seq<MeshEntry>): set<Port> {
    set e, p | e in services && e.service.Active() && p in e.service.ports :: p
  }

  /** A remote port of a peer service. */
  datatype Endpoint = Endpoint(service: string, port: Port)

  /** Local port reserved for each remote endpoint ever planned. */
  type Registry = map<Endpoint, Port>

  ghost predicate Injective(r: Registry) {
    forall a, b :: a in r && b in r && r[a] == r[b] ==> a == b
  }

  /** `later` still holds every reservation of `earlier`, unchanged. */
  ghost predicate Extends(earlier: Registry, later: Registry) {
    forall e :: e in earlier ==> e in later && later[e] == earlier[e]
  }
}
