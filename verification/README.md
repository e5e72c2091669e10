# Verified model of the confidential agent's guest daemon and gateway

A confidential guest runs a daemon and a gateway. The daemon turns a mesh bundle into local
endpoints, proxies and firewall rules, remembers every endpoint it has ever handed out, caches the
cards of foreign A2A peers and installs resources; the gateway signs and checks service tokens and
keeps a hash-chained audit log. This project models that logic in Dafny and proves what holds over
all inputs and all runs.

| file | subject |
|---|---|
| `results.dfy`, `ports.dfy`, `text.dfy`, `mesh_schema.dfy` | options and results, ports, text, the mesh bundle and the endpoint registry |
| `mesh_planner.dfy` | the endpoint planner: the daemon's loops, proved equal to a left fold of small jobs |
| `mesh_plan_safety.dfy`, `mesh_plan_choice.dfy`, `mesh_plan_runs.dfy` | what one plan keeps apart, which ports it chooses, the fixed point of planning, capacity, histories of plans |
| `mesh_routing.dfy`, `mesh_files.dfy`, `gateway_config.dfy` | the published directory, TNG and gateway files and what exactly they contain, the gateway's checks, where a connection ends up |
| `mesh_durability.dfy`, `mesh_ownership.dfy` | plan, persist, publish as steps over a disk with crashes, torn files and deletions; which service owns the state |
| `json_value.dfy`, `json_canonical.dfy` | the canonical JSON printer in its two implementations, and a parser for its output |
| `gateway_audit.dfy`, `gateway_audit_store.dfy`, `gateway_connections.dfy` | the audit chain, the store that appends to it under I/O faults, connections sharing the store |
| `gateway_replay.dfy`, `gateway_tokens.dfy` | service tokens, which texts pass as one, signing, and the replay cache |
| `gateway_chunked.dfy`, `gateway_text.dfy` | the chunked body decoder (section 7.1 of RFC 9112) and the text of its size lines |
| `a2a_cache.dfy`, `a2a_runs.dfy`, `a2a_answers.dfy`, `a2a_directory.dfy` | the cache of A2A peers, its runs, when and how peers are answered, the directory published for them |
| `guest_resources.dfy`, `guest_convergence.dfy`, `guest_success.dfy`, `guest_contents.dfy` | applying bootstrap resources, what that converges to, when it succeeds and what the files then hold |
| `request_limits.dfy` | the rate limiter and the counter of active requests |
| `firewall.dfy`, `ipv4.dfy`, `service_ports.dfy`, `disk_size.dfy` | security group rules, CIDR blocks, port checks, disk sizes |

Code that changes state step by step is a method, proved equal to a specification function of the old
state; the theorems are lemmas about those functions and about every finite run of them. Hash,
signature, key decoding and name lookup are parameters of the statements, never assumed injective.
Network, fetches, clocks and I/O faults are inputs of each step.

Eight things the code does are exact conditions here rather than plain guarantees:

- A plan's listeners are pairwise distinct exactly when no application port is a control port
  (50000, 8088, 8089); the planner does not check that.
- A state marker torn by a crash or by a failed write refuses every later start, and with it every
  publication, for ever exactly when its directory entry is durable; no step of the daemon replaces it.
- An audit append that fails halfway can leave the file's last line unterminated. Every success is in
  the file exactly when no append has succeeded on top of such a line; one that has is reported as
  successful although the file holds no record for it.
- The replay cache adds 30 seconds to a 64-bit expiry. An expiry within 30 seconds of the end of that
  range wraps around, and such a token is accepted again at once.
- Running out of local ports halfway through reassigning a cached A2A peer leaves two of its ports the
  same exactly when a port not yet reached was free and could be given out; a later sync that finds it
  free publishes it twice.
- A resource whose mode has a set-id or sticky bit never converges: readiness compares the permission
  bits only.
- A successful application of resources is ready exactly when what is there settles and each optional
  resource that is not there was ready before. One that was never applied is not, so the daemon applies
  again at every wake-up.
- A connect or mesh port that equals a management port is admitted for that port's peers as well.

## Model

| member | source | states |
|---|---|---|
| MeshPlanner.AllocateInternalPort | daemon/src/app.rs:2569-2576 | takes the least free port from the base up to 60999 and nothing else, or fails without change when all are taken |
| MeshPlanner.CheckReservations | daemon/src/app.rs:2439-2449 | passes exactly when no two endpoints share a reservation and none is an own application port |
| MeshPlanner.PlanOwnPort | daemon/src/app.rs:2465-2476 | one own port gets an egress and a gateway listener, or the whole plan fails |
| MeshPlanner.PlanLocal | daemon/src/app.rs:2512-2540 | keeps an endpoint's reservation, else reserves its own number if nobody listens there, else the first free client port; never changes an earlier reservation |
| MeshPlanner.PlanPeerPort | daemon/src/app.rs:2509-2560 | one peer port gets its route, the connect route reusing the reserved local port |
| MeshPlanner.PlanPeer | daemon/src/app.rs:2487-2561 | one peer is planned exactly as its jobs are folded, failing first if it has no address |
| MeshPlanner.RuntimePortPlan | daemon/src/app.rs:2426-2567 | the imperative planner computes the plan and edits the registry exactly as the fold of jobs says, in every error case too |
| MeshPlanner.RunAppend | daemon/src/app.rs:2464-2561 | planning is a left fold: planning more peers continues from the state the earlier ones left |
| MeshPlanSafety.StepKeepsInv | daemon/src/app.rs:2464-2561 | every step of the loops keeps hidden listeners single and apart from everything a client may see, and the registry injective |
| MeshPlanSafety.RunKeepsInv | daemon/src/app.rs:2464-2561 | so does every run of them, and the registry only grows |
| MeshPlanSafety.ListenersDistinct | daemon/src/app.rs:2439-2567 | in every successful plan control, own, egress, gateway, local and mesh ingress ports are pairwise distinct exactly when no own port is a control port |
| MeshPlanSafety.NewPortsAvoidReservations | daemon/src/app.rs:2439-2540 | no newly chosen port equals a reservation, even one held for an absent or inactive peer; the registry grows and stays injective; every route uses its reservation |
| MeshPlanSafety.FirstFreeStable | daemon/src/app.rs:2569-2576 | first fit is unaffected by ports taken in advance unless the chosen one is among them |
| MeshPlanSafety.RunLifts | daemon/src/app.rs:2464-2561 | a run repeated with all its later reservations already present takes the same decisions |
| MeshPlanSafety.ReplanIsFixedPoint | daemon/src/app.rs:2426-2567 | planning again with the registry a plan produced succeeds with the identical routes and registry |
| MeshPlanChoice.OwnNumberExactly | daemon/src/app.rs:2510-2540 | a new endpoint keeps its own number exactly when that is no control port, no own port and not the port of another endpoint; otherwise it gets the first port from 39600 on that nothing else stands in the way of |
| MeshPlanChoice.HiddenAreFirst | daemon/src/app.rs:2464-2476 | every egress, gateway and ingress listener has the first port from 39000, 39200 and 39400 on that nothing else stands in the way of |
| MeshPlanChoice.ReservesExactlyRoutes | daemon/src/app.rs:2510-2540 | a plan adds a reservation for every endpoint it routes and for no other |
| MeshPlanRuns.PlanHasRoom | daemon/src/app.rs:2450-2458 | no plan fails by exhaustion while used and requested ports together fit in the 21400 slots from 39600 to 60999 |
| MeshPlanRuns.PlanErrors | daemon/src/app.rs:2426-2567 | with sound reservations clear of the control ports an active guest's plan fails only for lack of ports or of a peer address, never by an overlap guard, and leaves reservations sound |
| MeshPlanRuns.PlanSucceedsExactly | daemon/src/app.rs:2426-2567 | with room as well it succeeds exactly when every active peer has an address |
| MeshPlanRuns.HistoryKeepsSound | daemon/src/app.rs:2439-2449 | from an empty registry, over any bundle sequence, own ports changing or not, the registry stays injective and clear of control ports |
| MeshPlanRuns.HistoryOnlyGrows | daemon/src/app.rs:2510-2540 | a reservation made at any point of any such history is in force ever after |
| MeshPlanRuns.GuardsFireExactly | daemon/src/app.rs:2439-2449 | after any such history the listener guard never fires and the reservation guard fires exactly when a port reserved earlier is now an own port |
| MeshPlanRuns.SamePortsNeverGuarded | daemon/src/app.rs:2439-2449 | so while the own ports stay the same no guard ever fires |
| GatewayConfig.ValidateClientRoutes | gateway/src/lib.rs:191-204 | reports an error exactly when two client routes share a listener, or a listener equals the port behind it, or a target is blank |
| GatewayConfig.ValidateServerRoutes | gateway/src/lib.rs:205-219 | reports an error exactly when two server routes share a listener, or a listener equals its upstream port, or a protocol is unknown |
| GatewayConfig.Validate | gateway/src/lib.rs:173-227 | accepts a configuration exactly when its port checks and its identity checks hold |
| GatewayConfig.AudienceInjective | gateway/src/lib.rs:485-487 | no two pairs of service and port share a token audience, whatever characters a service id contains |
| MeshRouting.ConfidentialPorts | core/src/schema.rs:320-330 | the service ports that are not connect ports, in strictly increasing order |
| MeshRouting.PlanShape | daemon/src/app.rs:2481-2561 | a plan has exactly the routes of the active peers' ports, at their reachable addresses, and one own route for each own port |
| MeshRouting.TngFailsExactly | daemon/src/app.rs:2764-2847 | the TNG file cannot be written exactly when an active peer whose reference values are missing or cannot be rendered has a port or may call a mesh port of the guest, or the guest's own are and one of its ports shares an OHTTP key |
| MeshFiles.TngFailureNames | daemon/src/app.rs:3040-3066 | the service named as the cause has no reference values, or only a Rekor entry that cannot be rendered |
| MeshFiles.EveryRouteListed | daemon/src/app.rs:2578-2617 | the directory of a successful plan lists every route: its local port, its mode, and its protocol exactly if it is a mesh route |
| MeshFiles.NamedExactly | daemon/src/app.rs:2578-2617 | it names exactly the active services other than the guest that have a port |
| MeshFiles.ListsOnlyRoutes | daemon/src/app.rs:2578-2617 | it lists nothing but routes and no port twice |
| MeshFiles.RoutesDialServices | daemon/src/app.rs:2481-2500 | every route dials an active service at its public address, or at its private one if it gives no public one |
| MeshFiles.EgressExactly | daemon/src/app.rs:2783-2846 | one egress listener for each own route: it captures the own port, encrypts as the port's last connect entry says, shares its key exactly under OHTTP with replicas, and demands the attestation of all active peers exactly on mesh ports |
| MeshFiles.ServerRoutesExactly | daemon/src/app.rs:2926-2946 | the server routes are exactly the guest's mesh ports, each speaking MCP exactly if it is one of its MCP ports |
| MeshFiles.TrustsActiveServices | daemon/src/app.rs:2898-2913 | the gateway trusts exactly the active services, each with the key of its own entry |
| MeshFiles.GatewayFailsExactly | daemon/src/app.rs:2890-2907 | the gateway file cannot be written exactly when the guest has no identity or an active service has no key |
| MeshRouting.GeneratedRoutesPass | daemon/src/app.rs:2914-2946 | the routes generated from any plan pass the gateway's own port checks |
| MeshRouting.DirectoryLeadsHome | daemon/src/app.rs:2578-2617 | following a published endpoint through the gateway and TNG files reaches exactly the service and port its registry entry stands for, attested as that service, with the token for it, and nowhere else |
| MeshRouting.TokenAcceptedOnlyAtTarget | gateway/src/lib.rs:342-348 | the token sent towards a service and port is accepted there exactly when it is one of its mesh ports, and by no other port or service |
| MeshRouting.EndpointReachesGateway | daemon/src/app.rs:2578-2617 | from end to end: a published mesh endpoint leads only to its registered service and port, where that service's own files from the same bundle capture the port, demand the caller's attestation and accept the token there and nowhere else |
| MeshDurability.HistoryKeepsInv | daemon/src/app.rs:3495-3573 | over every sequence of steps, faults, process exits, crashes and deletions, whatever may be started from holds every published assignment |
| MeshDurability.EndpointIdentityIsDurable | daemon/src/app.rs:2247-2261 | over every such history a local port published once for a remote endpoint is never published for another |
| MeshDurability.InitializedGuestFailsClosed | daemon/src/app.rs:3529-3562 | after the first publication a running daemon's registry holds every published assignment, and a missing or torn state is never started from |
| MeshDurability.InitializationIsForever | daemon/src/app.rs:3499-3527 | once the marker is durable no later step loses it, so a lost state file is refused for ever |
| MeshDurability.CrashCanTearMarker | daemon/src/app.rs:3504-3514 | a power loss right after the marker is created can leave it durably torn on a guest that has never published |
| MeshDurability.FailedWriteTearsMarker | daemon/src/app.rs:3504-3514 | so can a failed write of its contents, which refuses the next start at once; a power loss then keeps or undoes it |
| MeshDurability.TornMarkerRefuses | daemon/src/app.rs:3515-3521 | from then on every start is refused and nothing is ever published |
| MeshDurability.RefusedForEverExactly | daemon/src/app.rs:3499-3562 | a daemon that is down stays down whatever follows exactly when its marker is torn with a durable directory entry |
| MeshDurability.PublishedOnlyGrows | daemon/src/app.rs:2339 | what has been published stays published in every continuation of a history |
| MeshOwnership.SyncCommitsExactly | daemon/src/app.rs:2247-2256 | an idle daemon commits a sync exactly when the state has no owner or this one, no reservation is an own port, and the plan succeeds |
| MeshOwnership.ForeignSyncRefused | daemon/src/app.rs:1750-1775 | any other sync leaves memory, state file and published assignments as they were |
| MeshOwnership.AdmittedSyncCommits | daemon/src/app.rs:2247-2256 | a sync so admitted leaves the plan's registry in memory in the name of its service |
| MeshOwnership.OneOwnerAlways | daemon/src/app.rs:2247-2256 | in every history without a restore all owners named in memory, state file and its earlier contents are the same |
| MeshOwnership.PublishedIsOwned | daemon/src/app.rs:2247-2261 | as soon as an endpoint has been published memory and every content of the state file belong to one service |
| MeshOwnership.OwnerIsForever | daemon/src/app.rs:2247-2261 | and that service stays the owner however the history goes on |
| MeshDurability.Guest.MarkInitialized | daemon/src/app.rs:3499-3527 | every way through the marker code, at start-up or in a sync, is a run of the protocol's steps; success means a sound marker, durable if just created |
| MeshDurability.Guest.WriteDaemonState | daemon/src/app.rs:3564-3573 | marker first, then the atomic replacement: every way through, the first write of a fresh guest included, is a run of the protocol's steps, success means the new state is stored |
| MeshDurability.Guest.ReadDaemonState | daemon/src/app.rs:3529-3562 | start-up proceeds from a stored state, marking it if need be, writes a first state on a fresh guest and refuses otherwise; every way through is a run of the protocol's steps |
| MeshDurability.Guest.PlanAndCommit | daemon/src/app.rs:2241-2255 | commits the plan's registry exactly when the state has no owner or this service, no reservation is an own port, and planning on a copy succeeds; otherwise the daemon's memory stays as it was |
| MeshDurability.Guest.SyncMesh | daemon/src/app.rs:2241-2339 | every way through a sync, whatever call fails, is a run of the protocol's steps, so the results above apply to it; memory is committed exactly when the sync is admitted and planned, whatever I/O fails later |
| JsonValue.CollectSorted | gateway/src/lib.rs:1603-1611 | collecting members into an ordered map lists exactly the same members in key order |
| JsonValue.SortInPlace | core/src/agent_card_signing.rs:162-195 | sorting entries in place gives the same list |
| JsonValue.KeyLessExactly | gateway/src/lib.rs:1603-1611 | keys are ordered by the first character where they differ, a proper prefix first |
| JsonCanonical.CanonicalRoundTrip | gateway/src/lib.rs:1578-1620 | a parser reads every value back from its canonical text, members in key order, and stops exactly at its end |
| JsonCanonical.StringRoundTrip | gateway/src/lib.rs:1589-1591 | every string is read back from its escaped form (section 7 of RFC 8259) |
| JsonCanonical.CanonicalIsFaithful | gateway/src/lib.rs:1578-1620 | two values have the same canonical text exactly when they are equal up to the order of object members |
| JsonCanonical.GatewayCanonical | gateway/src/lib.rs:1578-1620 | the map-based printer prints the canonical text |
| JsonCanonical.CardCanonical | core/src/agent_card_signing.rs:162-195 | the sort-based printer prints the same text |
| GatewayAudit.VerifyPath | gateway/src/lib.rs:1502-1554 | reports a file as valid exactly when its lines form one chain from 64 zeros, with the count and the last hash of that chain |
| GatewayAudit.TamperEvidence | gateway/src/lib.rs:1502-1562 | two valid files with the same latest hash hold the same records in the same order, or exhibit a collision or a record that hashes to 64 zeros |
| GatewayAudit.SameTipSameRecords | gateway/src/lib.rs:1557-1562 | the same for two chains of lines |
| GatewayAuditStore.AuditStore.AppendRecord | gateway/src/lib.rs:1470-1491 | whatever write fails, file and store end up as one step of the log; the store moves only after the sync |
| GatewayAuditStore.AuditStore.Append | gateway/src/lib.rs:1452-1468 | the same for a call record; the method is counted exactly when the append succeeds, and from a terminated file the store knows, success means the file holds one record more |
| GatewayAuditStore.CallRecordReads | gateway/src/lib.rs:1452-1468 | every field of a call is read back from its record |
| GatewayAuditStore.CallRecordInjective | gateway/src/lib.rs:1452-1468 | two calls have the same record exactly when they are the same call |
| GatewayAuditStore.GenesisReads | gateway/src/lib.rs:1443-1450 | the first record of a chain reads back its service and time |
| GatewayAuditStore.HistoryVerifiesExactly | gateway/src/lib.rs:1470-1491 | after any appends to a consistent log the file verifies exactly when at most one append left a whole record behind without succeeding and nothing was written after it; clean appends keep the store's number and hash those of the file |
| GatewayAuditStore.HistoryKeepsRecords | gateway/src/lib.rs:1470-1491 | when every append succeeds or writes nothing, the file holds the earlier records and then exactly the records of the successful appends, in order |
| GatewayAuditStore.SuccessesHeldExactly | gateway/src/lib.rs:1470-1491 | over any appends and faults, from a terminated file on, every append reported as successful has its record in the file in every state, exactly when none succeeded while the last line was unterminated |
| GatewayAuditStore.UnterminatedFileBreaks | gateway/src/lib.rs:1480-1487 | a file whose last line lost its newline verifies when reopened, but the next append breaks the chain |
| GatewayAuditStore.LostNewlineLosesBoth | gateway/src/lib.rs:1480-1487 | after a lost newline the next append reports success although the file holds neither record |
| GatewayAuditStore.SummaryCounts | gateway/src/lib.rs:1423-1434 | the rebuilt summary counts every method as often as records name it |
| GatewayAuditStore.Rebuild | gateway/src/lib.rs:1421-1440 | reopening restores the sequence number, latest hash and method counts of the file |
| GatewayAuditStore.Open | gateway/src/lib.rs:1402-1441 | starts a chain with a genesis record or rebuilds from an existing file, which it refuses exactly when the file does not verify |
| GatewayConnections.HistoryKeepsInv | gateway/src/lib.rs:681-754 | as long as no reply is logged on an unterminated line, in every interleaving each reply about to be released, and each released one, has its own record |
| GatewayConnections.EveryReplyIsLogged | gateway/src/lib.rs:681-754 | from a terminated file on, in every interleaving and with any faults, every reply is recorded before its release, for that very call, in a record no other reply shares, exactly when no reply was logged while the last line was unterminated |
| GatewayConnections.CleanAppendsKeepReplies | gateway/src/lib.rs:681-754 | in particular when every append succeeds or writes nothing; the file then verifies and the store keeps its number and hash |
| GatewayConnections.CallGoesThrough | gateway/src/lib.rs:681-754 | a new connection's call is read, recorded and its reply released with the index of its record |
| GatewayConnections.FailedRecordCloses | gateway/src/lib.rs:681-754 | a reply whose record fails is never released, the connection closes |
| GatewayReplay.ReplayCache.Insert | gateway/src/lib.rs:120-132 | refuses exactly an identifier that is still kept, and purges expired entries either way |
| GatewayReplay.VerifyServiceToken | gateway/src/lib.rs:435-483 | checks run in the source's order and the cache changes only when all before it pass |
| GatewayReplay.CheckToken | gateway/src/lib.rs:435-477 | a token passes exactly if it has three segments and an accepted header, names this audience, is within its lifetime, was not issued later than the skew allows, and is signed by a trusted issuer |
| GatewayTokens.SegmentsAreTheParts | gateway/src/lib.rs:442-445 | the segments of a token hold no dot, give it back when joined by dots, and are one more than its dots |
| GatewayTokens.TokenPassesExactly | gateway/src/lib.rs:442-477 | three texts without dots, joined by dots, pass exactly when header, claims, audience, lifetime, issue time, issuer and signature of the first two do |
| GatewayTokens.OtherDotsRefused | gateway/src/lib.rs:442-445 | a token is refused for its segments exactly when its number of dots is not two |
| GatewayTokens.SignedTokenPassesExactly | gateway/src/lib.rs:391-434 | a token signed for one port of one service passes behind that port of that service and nowhere else, from the skew before it was signed until its lifetime has passed |
| GatewayReplay.Remembered | gateway/src/lib.rs:120-132 | over runs of calls by all routes sharing the cache, an accepted identifier stays in it until the latest time seen has passed its expiry plus the skew |
| GatewayReplay.RefusedExactlyAsReplay | gateway/src/lib.rs:120-132 | over such runs, with a clock that does not go back, a token that passes all other checks of any route is refused exactly when its identifier was accepted before, by any route, with an expiry that has not passed, skew included |
| GatewayReplay.AcceptedAtMostOnce | gateway/src/lib.rs:453-478 | while the clock never falls more than 30 seconds below its maximum, an identifier with its expiry is accepted at most once by all routes together |
| GatewayReplay.ReplayNeedsWrap | gateway/src/lib.rs:126 | a token shown again within its lifetime is accepted again exactly when its expiry plus the skew wraps around to before that moment |
| GatewayReplay.SkewIsTight | gateway/src/lib.rs:120-132 | with a clock that falls by 31 seconds a token can be accepted twice |
| GatewayChunked.ScanCrlf | gateway/src/lib.rs:1027-1031 | the scan finds the first line end from a position, or that there is none |
| GatewayChunked.ReadTrailers | gateway/src/lib.rs:1043-1061 | the trailer loop ends, and accepts exactly what the trailer grammar accepts |
| GatewayChunked.ReadChunk | gateway/src/lib.rs:1027-1082 | one chunk head is read without indexing out of range, each error in the source's order |
| GatewayChunked.DecodeChunkedBody | gateway/src/lib.rs:1023-1083 | the decoder makes strict progress and computes the decoding function |
| GatewayChunked.MessageAccepted | gateway/src/lib.rs:1023-1083 | every well-formed chunked message decodes to its payload, or is refused when that exceeds 16 MiB |
| GatewayChunked.DecodesExactly | gateway/src/lib.rs:1023-1083 | a body decodes to some bytes exactly when it is a well-formed chunked message with that payload of at most 16 MiB |
| GatewayChunked.TrailingBytesRefused | gateway/src/lib.rs:1054-1059 | a message followed by anything at all is refused |
| GatewayChunked.EveryEncodingDecodes | gateway/src/lib.rs:1023-1083 | however a body of at most 16 MiB is split into non-empty chunks, with any extensions and trailers, decoding the encoding returns it |
| GatewayChunked.OneChunkDecodes | gateway/src/lib.rs:1023-1083 | one chunk written out byte for byte decodes to its data up to 16 MiB and is refused as too large beyond |
| GatewayChunked.SizeLineReads | gateway/src/lib.rs:1034-1040 | a size in hexadecimal with any extension is read back |
| GatewayText.Utf8Exactly | gateway/src/lib.rs:1034-1040 | a line passes as text exactly when it is the UTF-8 encoding of some code points (section 3 of RFC 3629) |
| GatewayText.TrimIsByCharacters | gateway/src/lib.rs:1034-1040 | trimming the bytes of a text removes the white-space characters at both ends and nothing else |
| GatewayText.SizeReadExactly | gateway/src/lib.rs:1034-1040 | a size is read exactly from hexadecimal digits after an optional plus sign that stand for a number below 2^64 |
| A2aCache.AllocateLocalPort | daemon/src/app.rs:3453-3465 | takes the remote's own number if it is free, else the least free port from 18000 up, else fails without change |
| A2aCache.EnsurePortsAvailable | daemon/src/app.rs:3432-3451 | keeps cached ports if none is in use, else reassigns them one by one as far as ports last |
| A2aCache.Daemon.ResolvePeer | daemon/src/app.rs:3193-3380 | the method changes cache, ports in use and status exactly as the resolution function says, in every branch |
| A2aCache.Daemon.SyncPeers | daemon/src/app.rs:3086-3183 | a whole sync is a run of the cache's steps: begin, one visit for each peer, end |
| A2aDirectory.DirectoryLeadsToPeers | daemon/src/app.rs:3104-3165 | in every state of every run the directory names exactly the answers published in the current sync, and every port it lists is where an ingress listens that dials the answer's address and the remote port at the same place |
| A2aDirectory.DirectoryListsPublished | daemon/src/app.rs:3137-3163 | the ports it lists, in the order of publication, are exactly the published local ports |
| A2aDirectory.DirectoryPortsApart | daemon/src/app.rs:3137-3163 | so they are pairwise distinct over all names exactly when no visit of the sync has served a duplicate |
| A2aDirectory.DirectoryAvoidsMesh | daemon/src/app.rs:3093-3099 | and none is an application port, a mesh reservation or a port of the mesh directory |
| A2aDirectory.AnswerFromCard | daemon/src/app.rs:3260-3305 | the addresses and remote ports that it leads to are those of a card fetched for the peer |
| A2aRuns.AssignGivesFreePorts | daemon/src/app.rs:3264-3271 | ports given out together are distinct, were free, and are all that was added to the ports in use |
| A2aRuns.AvailableGivesFreePorts | daemon/src/app.rs:3432-3451 | ports made available were free and still belong to the same remotes; they are distinct unless the entry held one twice and all of its ports were free |
| A2aRuns.FailureGivesExactly | daemon/src/app.rs:3447-3465 | a reassignment that runs out has given out exactly the free ports among 18000 to 60999 and the remote numbers it tried |
| A2aRuns.ExhaustionLeavesDistinctExactly | daemon/src/app.rs:3447-3449 | when ports run out the entry is left with distinct ports exactly when those not reached are distinct and each was in use before or could not be given out |
| A2aRuns.ExhaustionInRange | daemon/src/app.rs:3447-3449 | for distinct ports from 18000 to 60999: exactly when every port not reached was in use before |
| A2aRuns.CacheDistinctExactly | daemon/src/app.rs:3193-3380 | in every state of a run all cached ports are distinct per peer exactly when no visit has run out of ports with a free, allocatable one not reached |
| A2aRuns.PublishedPortsApart | daemon/src/app.rs:3086-3183 | in every state of every run the published local ports are pairwise distinct exactly when no visit of the current sync has served an entry holding one free port twice |
| A2aRuns.DistinctCachePublishesApart | daemon/src/app.rs:3086-3183 | so they are distinct throughout a run in which exhaustion has left no duplicate in the cache |
| A2aRuns.PublishedPortsHeld | daemon/src/app.rs:3093-3099 | in every state of every run, exhausted or not, no published local port was reserved when the sync began |
| A2aRuns.SyncAvoidsMesh | daemon/src/app.rs:2315-2337 | whatever the peers do, what a sync publishes is no application port, no mesh reservation and no port of the mesh directory |
| A2aRuns.CachedPeerKeepsPorts | daemon/src/app.rs:3432-3451 | a cached peer keeps its ports exactly when none of them is in use |
| A2aRuns.ExhaustionDuplicates | daemon/src/app.rs:3447-3449 | running out of ports halfway leaves a cached peer with two ports the same |
| A2aRuns.DuplicateIsPublished | daemon/src/app.rs:3434-3445 | a cached entry with one free port twice is served as it is, and the sync publishes that port twice |
| A2aRuns.ExhaustionPublishesTwice | daemon/src/app.rs:3434-3451 | a sync that runs out of ports at a cached peer makes the next one, if it finds the duplicated port free, publish it twice |
| A2aRuns.EntryOrigin | daemon/src/app.rs:3260-3380 | a resolvable entry holds the card of a successful fetch with no fetch since that forbids stale data |
| A2aRuns.AnswerOrigin | daemon/src/app.rs:3193-3388 | every answer comes from a card fetched for this peer, no hard failure since; a fresh one was fetched under the present fingerprint less than 3600 seconds ago |
| A2aRuns.HardFailureSilences | daemon/src/app.rs:3339-3345 | after a fetch that forbids stale data the peer resolves only if a later fetch has succeeded |
| A2aAnswers.StaleAnswersExactly | daemon/src/app.rs:3308-3405 | unless ports run out, a failed fetch is answered from the cache exactly when there is a resolvable entry and the failure was one of transport or a server error |
| A2aAnswers.FetchedCardLasts | daemon/src/app.rs:3199-3205 | after a successful fetch an unchanged peer is not fetched again for exactly as long as its card declares, but at least 60 and at most 3600 seconds |
| A2aAnswers.FailedFetchWaits | daemon/src/app.rs:3315-3318 | after a failed one for exactly 60 seconds |
| A2aAnswers.ResolvedStatus | daemon/src/app.rs:3230-3256 | a peer that resolves is reported with its ports and name, and as stale exactly while its last fetch has failed |
| A2aAnswers.VisitedExactly | daemon/src/app.rs:3104-3109 | a sync visits a peer exactly when the peer lists no services or lists this one |
| A2aRuns.FetchesAreSpaced | daemon/src/app.rs:3199-3205 | while a peer stays listed with one fingerprint its fetches are at least 60 seconds apart, unless the first found no local port |
| GuestResources.PlanResources | daemon/src/app.rs:1617-1644 | the planning loop computes the plan, stopping at the first error |
| GuestResources.ResourceDaemon.ApplyOnceHere | daemon/src/app.rs:1955-2026 | a target is replaced by way of its temporary file, or only its metadata change, or nothing does |
| GuestResources.ResourceDaemon.InstallCredentialsHere | daemon/src/app.rs:1854-1891 | both credentials are verified before either is installed |
| GuestResources.ResourceDaemon.ApplyBootstrapResources | daemon/src/app.rs:1584-1748 | the whole application, with files and records kept up to the step that fails |
| GuestConvergence.StepDone | daemon/src/app.rs:1676-1720 | a planned update does its job in any state that agrees with the one it was planned in |
| GuestConvergence.SuccessMeansDone | daemon/src/app.rs:1584-1748 | after a successful application every resource whose source is there is in place and recorded, and every other one is optional and left as it was |
| GuestConvergence.ApplyMakesReady | daemon/src/app.rs:1489-1519 | then the readiness check accepts exactly when every resource whose source is there has a mode of at most 0o777 and owners a file can have, and every other one was ready before |
| GuestConvergence.ApplyIsStable | daemon/src/app.rs:1584-1748 | if what is there settles, a second application succeeds and changes no file and no record |
| GuestConvergence.OptionalNeverReady | daemon/src/app.rs:1489-1519 | an optional resource that is not there and was never applied keeps a successful application from being ready, and applying again changes nothing |
| GuestSuccess.ApplySucceedsExactly | daemon/src/app.rs:1584-1748 | where temporary names may be written, an application succeeds exactly when the own ports are free, only optional resources are missing, every other source passes its checks, targets may be written, metadata are known and credentials are what they should be |
| GuestSuccess.ReadyExactly | daemon/src/app.rs:1489-1519 | the readiness check accepts exactly when this generation has been applied and every resource's record, file, metadata and content are in place |
| GuestSuccess.SourceExactly | daemon/src/app.rs:1617-1644 | a source counts when it is there, not empty, at most 100 MiB and matches its digest; an absent or empty one is missing, any other an error |
| GuestContents.FirstApplicationOverwrites | daemon/src/app.rs:1624-1632 | a mutable resource never applied before, or whose target is gone, holds its staged content afterwards, whatever the target held |
| GuestContents.StagedContentHeld | daemon/src/app.rs:1633-1639 | so does every resource that is not mutable, after every successful application |
| GuestContents.CredentialsDoNotWait | daemon/src/app.rs:1854-1891 | while another required resource is missing both management credentials are installed if both are there and can be |
| GuestConvergence.MutableContentKept | daemon/src/app.rs:1624-1632 | a mutable resource applied before whose target exists keeps its content, whatever the outcome |
| GuestConvergence.MissingWritesNothing | daemon/src/app.rs:1646-1666 | while a required resource is missing only management credentials are installed and no generation is recorded |
| RequestLimits.FixedWindowRateLimiter.Allow | daemon/src/app.rs:1146-1167 | the method decides and updates the windows as the decision function says |
| RequestLimits.BudgetStep | daemon/src/app.rs:1146-1167 | each window a peer has used up pays for at most the maximum, and windows lie at least one length apart |
| RequestLimits.AdmissionsBounded | daemon/src/app.rs:1146-1167 | with a clock that does not go back a peer is admitted at most (k+1) times the maximum in any closed interval of k windows |
| RequestLimits.RefusedExactly | daemon/src/app.rs:1153-1166 | a request is refused exactly when the limit is zero or the peer has been admitted that often since a moment less than a window ago |
| RequestLimits.PeersAreIsolated | daemon/src/app.rs:1146-1167 | a request is admitted exactly as if its peer were alone |
| RequestLimits.CounterCountsGuards | daemon/src/app.rs:1079-1099 | in every interleaving of stale loads, weak exchanges and drops the counter equals the number of live guards and never exceeds the maximum |
| RequestLimits.RefusedOnlyWhenFull | daemon/src/app.rs:1082-1084 | a handler is refused only if at some moment the maximum number of guards was live |
| RequestLimits.GuardComesAndGoes | daemon/src/app.rs:1079-1099 | alone, a handler below the maximum gets its guard, and dropping it restores the counter |
| Firewall.SecurityGroupRules | shelter/src/lib.rs:377-448 | the loops push exactly the specified rules |
| Firewall.CidrsForScope | core/src/peerings.rs:131-139 | lists exactly the networks of entries whose effective scope includes the scope |
| Firewall.ManagementExactly | shelter/src/lib.rs:381-416 | a management port's own rules admit exactly the networks of its scope, SSH only on images that have it |
| Firewall.AdmitsExactly | shelter/src/lib.rs:377-462 | a port admits exactly its management scope, connect-scope and managed networks on connect ports, mesh-scope and managed networks on other service ports |
| Firewall.DefaultScopeAdmits | core/src/peerings.rs:51-75 | an entry without scopes admits an operator to control, status and agent card, SSH where there is any, and connect ports, and a peer to agent card and connect ports only |
| Firewall.ListedScopeAdmits | core/src/peerings.rs:51-75 | an entry with scopes admits to these and no others |
| Firewall.PlannedRoutesAdmitted | shelter/src/lib.rs:417-462 | every route a guest plans to a peer is admitted by that peer's rules for the guest's managed network |
| Firewall.PlannedRoutesReach | core/src/peerings.rs:183-202 | and so is every address of that network |
| Firewall.RulesIgnoreOrder | shelter/src/lib.rs:377-462 | the rules do not depend on the order or repetition of peerings and managed networks |
| Ipv4.ContainsIsPrefix | core/src/peerings.rs:183-202 | a network contains exactly the addresses that share its prefix (section 3.1 of RFC 4632) |
| Ipv4.KnownPrefixes | core/src/peerings.rs:183-202 | a prefix of 32 is one address, of 0 every address, of 24 all with the same first three bytes |
| Ipv4.ShorterPrefixContains | core/src/peerings.rs:183-202 | shortening a prefix only widens the network |
| DiskSize.SizeIsExact | core/src/spec.rs:1081-1103 | an accepted size g satisfies (g-1) GiB < floor(decimal times unit) <= g GiB, the decimal taken as a real number |
| DiskSize.CheckedSize | core/src/spec.rs:1081-1103 | it succeeds exactly when there are bytes and digits, power of ten, product and rounding stay below 2^128 and the result below 2^32, so nothing ever wraps around |
| DiskSize.WrittenZerosKeepSize | core/src/spec.rs:1056-1104 | zeros at the end of the written fraction never change an accepted size |
| DiskSize.DecimalIsRead | core/src/spec.rs:1056-1080 | a decimal, with or without a point, with or without space before its unit and around it, is read as its digits and that unit |
| DiskSize.UnitsArePowers | core/src/spec.rs:1060-1073 | k, m, g and t mean powers of 1000, with an i powers of 1024, each with or without a b |
| DiskSize.OnlyTheseUnits | core/src/spec.rs:1060-1073 | and no other text is a unit |
| DiskSize.DeploymentDiskGb | core/src/spec.rs:500-516 | an accepted deployment size is at least 20 GiB and at least the image's |
| DiskSize.DeploymentExactly | core/src/spec.rs:500-516 | a configured size is accepted exactly if it is at least 20 GiB and the image's; without one the disk has 32 GiB or the image's size |
| DiskSize.DeploymentHoldsImage | core/src/spec.rs:500-516 | so the deployed disk has at least the bytes the operator wrote |
| ServicePorts.ValidateConnectPorts | core/src/spec.rs:837-853 | accepts exactly distinct non-zero service ports |
| ServicePorts.ValidateMcpPorts | core/src/spec.rs:855-876 | accepts exactly distinct non-zero service ports that are not connect ports |

## Left out

- Sockets, threads, HTTP, iptables, systemd, inotify and the commands around them: their outcomes are inputs of the steps.
- SHA-256, Ed25519, base64 and serde: parameters, or already parsed values. A key that fails to decode is one predicate.
- Canonical JSON is modelled on characters, not on their UTF-8 bytes, and a non-integer number is its printed text.
- The registry is one map from service and port to a local port; the source nests two maps.
- The planner's two guards over persisted reservations are one error: the source's map order decides which message comes first.
- The replicas' own firewall and gossip, and what a Rekor payload contains: an entry can be rendered or cannot.
- The sync without a mesh bundle, and the services restarted after a sync.
- Restoring a daemon state older than the last publication, and deleting marker, directory and cached bundle together.
- Sequence numbers and times other than the token's are unbounded; mutex poisoning does not occur.
- A line of the audit file is blank, unparsable or a record; how serde rejects it is not modelled.
- GatewayReplay.VerifyServiceToken: base64 and JSON failures within one segment are one error.
- A2A statuses keep the name, id, last success and ports; error texts and the time of the last fetch are dropped.
- A2aRuns.SyncAvoidsMesh: says nothing about hidden TNG and gateway listeners, from which the source does not keep A2A ports apart.
- A2aRuns.AnswerOrigin: a stale answer may come from a card fetched under an earlier fingerprint, as the source allows.
- Resource targets are regular files, and file operations succeed once their checks pass; sources lie outside the targets.
- Status, readiness and agent card files that an application rewrites.
- The name, priority and provider fields of security group rules other than name, port and network.
- Parsing of IPv4 addresses; a network's text is read by a parameter.
- Field-by-field emptiness checks of specifications, agent cards and A2A bundles; command line workflows, the terminal interface, packaging.
