/** The checks on a service's connect and MCP ports. */
module ServicePorts {
  import opened Ports
  import opened MeshSchema
  import MeshRouting

  /** Connect ports are service ports, not zero, and none is listed twice. */
  ghost predicate ConnectAcceptable(ports: seq<Port>, connect: seq<ConnectPort>) {
    && (forall i :: 0 <= i < |connect| ==> connect[i].port != 0 && connect[i].port in ports)
    && (forall i, j :: 0 <= i < j < |connect| ==> connect[i].port != connect[j].port)
  }

  function ConnectSet(connect: seq<ConnectPort>): set<Port> {
    set cp | cp in connect :: cp.port
  }

  /** MCP ports are service ports but not connect ports, not zero, and none is listed twice. */
  ghost predicate McpAcceptable(ports: seq<Port>, connect: seq<ConnectPort>, mcp: seq<Port>) {
    && (forall i :: 0 <= i < |mcp| ==> mcp[i] != 0 && mcp[i] in ports && mcp[i] !in ConnectSet(connect))
    && Distinct(mcp)
  }

  /** `validate_connect_ports`. */
  method ValidateConnectPorts(ports: seq<Port>, connect: seq<ConnectPort>) returns (ok: bool)
    ensures ok <==> ConnectAcceptable(ports, connect)
  {
    var seen: set<Port> := {};
    for i := 0 to |connect|
      invariant seen == set k | 0 <= k < i :: connect[k].port
      invariant forall k :: 0 <= k < i ==> connect[k].port != 0 && connect[k].port in ports
      invariant forall j, k :: 0 <= j < k < i ==> connect[j].port != connect[k].port
    {
      var port := connect[i].port;
      if port == 0 || port !in ports || port in seen {
        return false;
      }
      seen := seen + {port};
    }
    ok := true;
  }

  /** `validate_mcp_ports`. */
  method ValidateMcpPorts(ports: seq<Port>, connect: seq<ConnectPort>, mcp: seq<Port>) returns (ok: bool)
    ensures ok <==> McpAcceptable(ports, connect, mcp)
  {
    var excluded := ConnectSet(connect);
    var seen: set<Port> := {};
    for i := 0 to |mcp|
      invariant seen == set k | 0 <= k < i :: mcp[k]
      invariant forall k :: 0 <= k < i ==> mcp[k] != 0 && mcp[k] in ports && mcp[k] !in excluded
      invariant forall j, k :: 0 <= j < k < i ==> mcp[j] != mcp[k]
    {
      var port := mcp[i];
      if port == 0 || port !in ports || port in excluded || port in seen {
        return false;
      }
      seen := seen + {port};
    }
    ok := true;
  }

  /** A service that passes serves all its MCP ports inside the mesh. */
  lemma McpPortsAreMeshPorts(ports: seq<Port>, connect: seq<ConnectPort>, mcp: seq<Port>)
    requires McpAcceptable(ports, connect, mcp)
    ensures Elements(mcp) <= Elements(MeshRouting.ConfidentialPorts(ports, ConnectSet(connect)))
  {
    forall p | p in mcp ensures p in ports && p !in ConnectSet(connect) {
      var i :| 0 <= i < |mcp| && mcp[i] == p;
    }
  }
}
