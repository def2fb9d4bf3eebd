# HexRift, modelled and verified in Dafny

HexRift compiles a declarative proxy-network topology into Xray configs and edits the topology file
in place. This project models its four parts that carry hard properties and proves them. Paths below
are relative to the HexRift repository.

* **Validator and hub compiler.** `Schema` and `Resolve` are the config after field validation and
  its defaults. `Acceptance` states, condition by condition, what a valid config is; `Validator`,
  `PortValidator` and `RootValidator` are the loops of the root validator, proved to pass a config
  exactly when it is `Accepted`. `Rules` gives routing rules a first-match semantics over abstract
  packets; `Routing` and `HubBuilder` emit a hub's rule list; `Router` is a declarative priority
  router, and `Answers` spells its answers out on the config's own fields and the tags in the file;
  `Layers` does the same for resolved settings. On top stand `Confinement` (published ports), `Reachability` (who reaches a portal),
  `Strangers` (who can pass for a portal's member), `Closure` (no dangling tag), `Selection` and
  `Neighbours` (what a balancer picks), `Census` (no rule lost), `Sockets` (no two listeners on one socket) and
  `PortalSide` (the portal's own config, end to end with the hub).
* **Identity, allocation, sharing.** `Identity` and `Derivation` (emails, UUIDs, collision check),
  `WireguardPeers` (address allocator and lookup), `Inbounds`, `Shares`, `Admission` and `ShareRequests`
  (share URLs against the inbounds that must accept them), `Members` (who those inbounds list, against
  what the validator counts as rendered), `WireguardConfigs` (client configs against the
  inbound's peers), `Keys` (the key store).
* **JSON compaction.** `JsonText` (pretty printer, lexer), `JsonParse` (reference parser),
  `Compaction` and `CompactLayout` (the text rewrite and its layout), `SerializedForm` (both written
  forms as one recursive printer).
* **The line-splice topology editor.** `TextLines`, `LineSplice` and `ItemSpans` are the line-level
  steps. `Outline` is the structured document behind a file, flattened to its lines; `Locating` turns
  a parser's marks into the positions the editor works with. `Editor` defines the two edits on that
  document, and `TopologyFile` is the class whose methods splice the lines, proved to refine them.
  `EditFacts`, `WellFormedEdits` and `DashLines` say what edits do to the document's form; `DocView`
  says what a document loads as; `RoundTrip`, `EditorRuns`, `References`, `SpecialNames`,
  `FallbackStable`, `SiblingOrder` and `NaturalOrder` hold the editor's laws.

`Base`, `Text` and `Names` are shared vocabulary. Hash functions (uuid5, SHA, HMAC), key generators
and endpoint material are function parameters of the model, so every theorem holds whatever they
compute. Generated private keys are assumed to differ from those already stored.

## Side conditions found

Some properties hold only under a condition the code does not enforce. The code is modelled as it is,
and the exact condition is proved:

* Emitted tags all exist exactly when every named lead is a primary and no hub route names a backup
  node (`Closure.PlainClosedIff`); outbounds of backup nodes carry a `backup-` prefix that targets
  omit. A lead is named where its region is not balanced or sets no `lb_fallback`. Node ids may
  themselves be spelled like a tag (`backup-x`, `warp-x`, `direct`), and then a missing tag can
  happen to be another outbound's; `Closure.ClosedIff` counts these too.
* A balancer picks exactly its own primaries exactly when its region's id starts their ids and no
  other outbound's tag (`Selection.SelectionIff`). `Neighbours.NlPicksNl2` is an accepted config where
  region `nl` picks `nl2-1`, a node of `nl2`, and passes over its own nodes.
* Identity emails are distinct exactly when no guest or server identity of a user named like the
  namespace repeats a username (`Identity.CollisionFreeNames`). For one portal: no guest, server or
  portal identity shares a member's email exactly when no such alias is one of its members
  (`Strangers.StrangersAreNoMembers`). `Strangers.NamespaceUserLeaksMembership` is an accepted config
  and a guest's packet that reaches a portal through no published port.
* Pinning a fallback keeps the resolved tag exactly when the region has a primary
  (`FallbackStable.PinnedStays`). A null `lb_fallback:` key suppresses pinning, and the tag then
  moves exactly when the new node takes the lead (`FallbackStable.UnpinnedDrifts`).
* Removing a node keeps the file well-formed exactly when the fallback it drops, if any, does not
  stand on its region's `- ` line, whose dash would go with it (`DashLines.RemovedWellFormedIff`,
  a document in `DashLines.DashedRegionBreaks`).
* Adding and removing a node restores the file exactly when its key had no empty `[]`, no fallback
  got pinned, and nothing in the file already names the new id or an empty region
  (`RoundTrip.RestoresDocument`).
* The validator reserves a hub's wireguard port from a short resolution of its settings; the builder's
  full one fails exactly when the node overrides wireguard without a subnet, leaves it enabled, and the
  defaults have no wireguard (`Resolve.WireguardPortAgrees`). Such a config is accepted and its hub does
  not render; `Sockets.ListenersDistinct` speaks of the others.
* A region's CDN URL leads to any of its nodes, and a node admits it exactly when its encryption is
  that of the node it was made for (`Admission.SharedCdnAdmitted`); nodes with equal key settings always
  do (`ShareRequests.CdnAdmittedByClass`).
* A removal drops exactly the hub routes whose destination would no longer be acceptable, and besides
  those the routes to `direct`, `blocked` or `warp` when the removed node itself bears that name
  (`References.DestinationDies`, a document in `SpecialNames.DirectRouteDropped`).
* `hub_default` is not repaired by a removal; it stays valid exactly when the region it names is not
  emptied (`References.DefaultSurvives`).

## Model

| member | source | states |
|---|---|---|
| RootValidator.ValidateReferences | hexrift/components/schema/models/root.py:184-386 | the validator passes a config if and only if it meets every declared condition: unique ids, references, port and portal conditions, routing |
| Validator.CheckRegions | hexrift/components/schema/models/root.py:192-277 | region and node ids, vlessRoute values and per-node settings are valid exactly when the nested loops find no fault, and the node id set they grow is every node id |
| PortValidator.NodeReservedPorts | hexrift/components/schema/models/root.py:76-118 | a node's inbounds claim distinct sockets exactly when the table fills, and the table then holds exactly those sockets |
| PortValidator.AllReservedPorts | hexrift/components/schema/models/root.py:309-313 | every node's reserved sockets, keyed by id, or a rejection exactly when some node's clash |
| RootValidator.ValidatePortalPublish | hexrift/components/schema/models/root.py:121-161 | a portal's entries are admissible and claim each (hub node, port) at most once, across all portals seen, exactly when it passes; the claims are recorded |
| RootValidator.CheckPortals | hexrift/components/schema/models/root.py:296-349 | portal ids, tags, members and published ports are valid exactly when no loop rejects |
| RootValidator.CheckRouting | hexrift/components/schema/models/root.py:351-384 | default, exit routes and hub routes name things that exist and can be dialled, exactly when it passes |
| Resolve.WireguardPortAgrees | hexrift/components/schema/models/resolve.py:45-79 | the validator's short port resolution and the builder's full one agree on whether wireguard listens and on the port |
| Schema.InFileOrder | hexrift/components/schema/models/root.py:175-181 | exit regions, rendered exit regions and hub regions keep their file order |
| Layers.WireguardLayers | hexrift/components/schema/models/resolve.py:57-79 | each wireguard setting is the node's own, else the defaults', else port 443, mtu 1420, no keepalive |
| Layers.TlsLayers | hexrift/components/schema/models/resolve.py:82-96 | a hub region with Reality serves no certificate; otherwise its own, else the defaults' |
| Layers.RealityLayers | hexrift/components/derive/defaults.py:20-28 | Reality is the node's own, else on hubs the region's or the defaults', and fails where none is set |
| Layers.XhttpLayers | hexrift/components/schema/models/resolve.py:99-113 | path and host are the node's, else the region's, else the defaults', whose host does not apply to the other kind of security |
| Layers.XhttpResolves | hexrift/components/schema/models/resolve.py:99-113 | it fails exactly when none of the three names a path |
| Layers.HysteriaListens | hexrift/components/schema/models/resolve.py:147-164 | which nodes listen: on hubs the node's own setting unless disabled, else the defaults; on exits any mention or the link protocol |
| Layers.HysteriaLayers | hexrift/components/schema/models/resolve.py:132-164 | every Hysteria setting is the node's, else an exit region's, else the defaults' |
| Layers.MetricsLayers | hexrift/components/schema/models/resolve.py:167-186 | metrics settings are the node's, else the role's, else the global ones |
| Layers.ListenerLayers | hexrift/components/schema/models/resolve.py:31-42 | proxy inbound, xdns and haproxy are the node's own where set, else the role's defaults |
| Layers.KeysLayers | hexrift/components/keys/defaults.py:10-20 | key settings are the node's own where set, else its role's defaults |
| Names.PublishTagInjective | hexrift/components/derive/topology.py:30-31 | a publish tag determines portal id and port even for ids containing `-` |
| Routing.ResolveNodePublishes | hexrift/components/derive/topology.py:47-68 | exactly the entries binding on the node, in portal then declaration order |
| Routing.BuildPublishRules | hexrift/components/derive/topology.py:71-89 | one allow rule per published port, with a deny rule behind it where an allowlist is set |
| Routing.BuildBalancers | hexrift/components/derive/topology.py:124-151 | one balancer per balanced region, and one more for its warp variant |
| Router.RouteGroup | hexrift/components/derive/topology.py:188-221 | the rules of one route answer exactly its users' packets that hit a domain, hit an ip where ips are included, or come with no matcher set, and send them to its target |
| HubBuilder.BuildHubRoutingRules | hexrift/components/derive/topology.py:224-356 | on accepted configs building never fails and emits exactly the ordered rule list |
| HubBuilder.RouteResolves | hexrift/components/derive/topology.py:297-315 | every accepted destination resolves, so no route falls through unrouted and no lookup misses |
| Rules.FirstMatchMeaning | hexrift/components/derive/topology.py:224-356 | first match is positional: some rule hits, none before it does, and its target is the answer |
| Router.RulesImplementRouter | hexrift/components/derive/topology.py:224-356 | for every packet, first match over the emitted rules equals the declarative priority router |
| Answers.RulesAnswer | hexrift/components/derive/topology.py:224-356 | the same answers spelled out: published ports, resolver, vlessRoute values, blocks, portals, the first route that takes the packet towards `warp`, its region's balancer or lead, or its node, direct routes, late blocks, and the default; with the tags as they stand in the file |
| Answers.BalancersAre | hexrift/components/derive/topology.py:96-151 | the balancers are exactly `lb-` and, with warp, `lb-warp-` of every exit region with a strategy and more than one node, falling back to its lead or to the named node's own tag |
| Router.EveryPacketRouted | hexrift/components/derive/topology.py:337-356 | on accepted configs every packet gets a target |
| Confinement.OneOwner | hexrift/components/schema/models/root.py:139-161 | on one hub node a port belongs to one entry of one portal |
| Confinement.TagNamesOnePort | hexrift/components/derive/topology.py:30-68 | on one hub node an inbound tag names one published port |
| Confinement.PublishedPortConfined | hexrift/components/derive/topology.py:71-89 | a connection on a published inbound goes to its own portal if its source is allowed and to `blocked` otherwise, whatever the rest of the config says |
| Confinement.OtherInboundsUntouched | hexrift/components/derive/topology.py:233-242 | removing all publish rules changes nothing for packets on other inbounds |
| Confinement.BuiltinInboundsUntouched | hexrift/components/derive/topology.py:233-242 | publishing changes no answer on a hub's built-in inbounds, whatever ids portals have |
| Confinement.BuiltinsAreNotPublished | hexrift/components/derive/topology.py:30-31 | no portal publishes under a built-in inbound's tag |
| Reachability.PortalReached | hexrift/components/derive/topology.py:276-295 | traffic reaches a portal's tag if and only if it is an allowed connection on one of its published inbounds, or it belongs to a member, a matcher hits, and nothing earlier answers |
| Strangers.StrangersAreNoMembers | hexrift/components/derive/identity.py:35-46 | no guest, server or portal identity has a member's email if and only if no user named like the namespace has a guest or server identity labelled like a member |
| Strangers.StrangersNeedPublishedPort | hexrift/components/derive/topology.py:276-295 | under that condition such an identity's traffic reaches the portal if and only if it comes in through one of its published ports |
| Strangers.NamespaceUserLeaksMembership | hexrift/components/derive/topology.py:276-295 | an accepted config where a guest's packet, on no published port, is routed to a portal |
| Reachability.BalancersAvoidPortals | hexrift/components/schema/models/root.py:327-337 | no balancer selector matches a portal's tag and no fallback is one |
| Closure.PortalTagOwn | hexrift/components/schema/models/root.py:327-337 | no special outbound, link, balancer or other portal has a portal's tag |
| Members.RenderedIsListed | hexrift/components/schema/models/root.py:42-59 | on a hub node whose listeners build, a user holds an access the validator counts as rendered if and only if one of the node's inbounds lists the user |
| Members.RoutableIsListed | hexrift/components/schema/models/root.py:338-346 | the validator calls a user routable if and only if some hub node's inbound lists the user |
| Members.MembersServed | hexrift/components/schema/models/root.py:338-346 | every member of a portal of an accepted config is listed by an inbound of some hub node |
| Closure.BuildLinks | hexrift/inbounds/context.py:117-165 | a hub's outbound list: every rendered node's plain link, then warp variants, with role prefixes |
| Closure.PrimariesClose | hexrift/components/derive/topology.py:96-172 | with primaries behind every named lead and no route to a backup, every outbound, balancer and fallback tag named exists |
| Closure.BackupIdDangles | hexrift/inbounds/context.py:148-148 | a backup node's bare id names an outbound if and only if it happens to be spelled like a special destination or another outbound's prefixed tag |
| Closure.ClosedIff | hexrift/components/derive/topology.py:96-172 | on every accepted config, every tag named exists if and only if named leads are primary and no route names a backup, or such a spelling supplies the missing tag |
| Closure.PlainClosedIff | hexrift/components/derive/topology.py:96-172 | with node ids spelled like no tag: if and only if named leads are primary and no route names a backup |
| Selection.SelectionIff | hexrift/components/derive/topology.py:124-151 | a balancer's prefix selector picks exactly its region's primaries if and only if the region's id starts their tags and nobody else's; likewise for warp balancers |
| Neighbours.NlPicksNl2 | hexrift/components/derive/topology.py:136-148 | an accepted config where the balancer of region `nl` picks the node `nl2-1` of region `nl2` and neither of its own two |
| Census.NoRouteLost | hexrift/components/derive/topology.py:262-335 | the emitted list is, as a multiset, the rules no route asks for plus every route's rules towards its destination |
| Census.RouteContributes | hexrift/components/derive/topology.py:262-335 | each accepted route has one rule per matcher kind in the emitted list, all towards its destination |
| Census.VlessSelectsOne | hexrift/components/derive/topology.py:243-260 | each vlessRoute and warp vlessRoute value selects exactly one rule, the region's own |
| Sockets.HubReservationExact | hexrift/components/schema/models/root.py:76-118 | what the validator reserves on a hub is exactly what its inbound builders bind |
| Sockets.HubListeners | hexrift/components/schema/models/root.py:76-118 | the sockets of a hub node, one by one: 443, the proxy's 80, xdns, wireguard and Hysteria where somebody has the access, metrics, and every published (port, transport) |
| Sockets.ExitListeners | hexrift/components/schema/models/root.py:76-118 | those of an exit node: 443, Hysteria where there are hubs, and metrics |
| Sockets.ListenersDistinct | hexrift/components/schema/models/root.py:139-161 | on every node of an accepted config listeners occupy pairwise distinct (port, transport) pairs |
| PortalSide.BuildPortalRules | hexrift/components/render/portal.py:80-125 | the tunnel rules in order: matchers, published targets, catch-all |
| PortalSide.PortalDecides | hexrift/components/render/portal.py:80-125 | strict tunnel traffic egresses if and only if it hits a declared domain, ip or published target, and is blackholed otherwise; everything else goes direct |
| PortalSide.PublishedEndToEnd | hexrift/components/render/portal.py:109-118 | a hub forwards a published connection exactly when its source is allowed, and the portal lets every forwarded one out |
| PortalSide.BuildPortalConfig | hexrift/components/render/portal.py:128-214 | succeeds exactly when the portal exists and every hub node can be dialled, with those dials and the pinned rules |
| PortalSide.DialsAreAdmitted | hexrift/components/render/portal.py:146-176 | every dial names a hub node and opens the portal's own tunnel, with the node's hostname, path, host and sni from its settings and the portal's UUID, and that node's direct inbound admits it: uuid listed, short id accepted, keys and flow matching |
| PortalSide.NeverLoopsBack | hexrift/components/render/portal.py:197-204 | no connection is routed into a hub dial, and the chosen outbound exists |
| Identity.CheckIdentityCollisions | hexrift/components/derive/controller.py:56-65 | accepts exactly when all identity UUIDs are pairwise distinct |
| Identity.CollisionFreeNames | hexrift/components/derive/identity.py:35-108 | once UUIDs do not collide, emails are pairwise distinct if and only if the namespace condition holds |
| Identity.EmailsSpelled | hexrift/components/derive/identity.py:35-46 | how the four kinds of identity email are spelled |
| Derivation.SharedOverrideClashes | hexrift/components/derive/controller.py:56-65 | two users with the same explicit UUID are reported |
| Derivation.PortalOverrideClashes | hexrift/components/derive/controller.py:56-65 | so are a user and a portal |
| Derivation.DerivedCollisions | hexrift/components/derive/identity.py:48-62 | without explicit UUIDs and with an injective hash the check passes if and only if no user has a guest twice or one labelled like the server identity; portals, users and other users' guests never collide |
| WireguardPeers.AllocatePeers | hexrift/components/derive/wireguard.py:34-66 | every request gets the next host in order; fails exactly when requests exceed the subnet's capacity |
| WireguardPeers.AddressesSound | hexrift/components/derive/wireguard.py:34-66 | peers get pairwise distinct hosts inside the masked subnet, never the server's, network or IPv4 broadcast address |
| WireguardPeers.CapacityClosedForm | hexrift/components/derive/wireguard.py:36-47 | capacity per family and prefix length, the two smallest subnets of each apart |
| WireguardPeers.AppendingUsersMovesNobody | hexrift/components/derive/wireguard.py:54-66 | appending users moves no existing peer |
| WireguardPeers.AppendingGuestsMovesNobody | hexrift/components/derive/wireguard.py:54-66 | appending guests to the last user moves no existing peer |
| WireguardPeers.LookupFindsOwnPeer | hexrift/components/derive/controller.py:374-400 | the email-keyed lookup finds the identity's own UUID and the very address the inbound allocates |
| WireguardConfigs.BuildWireguardConfigs | hexrift/components/derive/controller.py:333-408 | succeeds exactly when the request resolves, every covered node is ready and one listens; then one config per listening node, in order |
| WireguardConfigs.AskedIff | hexrift/components/derive/controller.py:349-368 | a request resolves if and only if its user is there, has wireguard access, and the identity asked for is the user's own |
| WireguardConfigs.ConfAdmitted | hexrift/inbounds/wireguard.py:19-41 | every config fits the node's inbound: endpoint, mtu and keepalive from the node's settings, server key, and one peer entry with the config's own public key under its address, which no other entry has |
| WireguardConfigs.ConfIsOwn | hexrift/components/derive/controller.py:374-391 | with distinct emails that key pair is derived from the requested identity's own UUID |
| WireguardConfigs.RequestedIdentity | hexrift/components/derive/controller.py:365-368 | whoever passes the gate and resolves is among the identities that get a peer |
| Inbounds.GetHubAccessClients | hexrift/inbounds/clients.py:51-88 | client entries of every user with the access, with server identities and guests, in order |
| Inbounds.GetHubUserShortIds | hexrift/inbounds/xhttp.py:105-119 | one short id per user with guests on an xhttp or cdn inbound, all distinct |
| Inbounds.UserSidListed | hexrift/inbounds/xhttp.py:105-119 | the listed short ids are exactly those of users with guests and xhttp or cdn access |
| Shares.DirectShareUrls | hexrift/components/derive/controller.py:227-262 | fails exactly when some eligible node's listener cannot be built; otherwise emits one URL per TLS node and one per distinct Reality listener |
| Shares.DirectCoverage | hexrift/components/derive/controller.py:227-262 | every eligible node is covered by its own TLS URL or by one for an identical Reality listener |
| Shares.DirectOncePerListener | hexrift/components/derive/controller.py:227-262 | within a region no two Reality URLs are for the same listener |
| Shares.FirstNamedByRegion | hexrift/components/derive/controller.py:252-261 | a region's first Reality URL is named after the region, later ones after their nodes |
| Admission.EmitHysteria | hexrift/components/derive/controller.py:195-225 | one URL per region and distinct endpoint material, named after the region when all agree |
| Admission.HysteriaNamed | hexrift/components/derive/controller.py:195-225 | a URL is named after the region if and only if all its listening nodes have that material, else after its node |
| Admission.HysteriaCoverage | hexrift/components/derive/controller.py:195-225 | every listening node is covered by a URL of its region with the same material |
| Admission.HysteriaOncePerMaterial | hexrift/components/derive/controller.py:195-225 | within a region no two Hysteria URLs carry the same material |
| Admission.DirectSharesAdmitted | hexrift/inbounds/xhttp.py:148-189 | every direct URL is admitted by the listener of the node it was made for: uuid, short id, sni, path, host, keys and flow |
| Admission.SharedUrlAdmittedEverywhere | hexrift/components/derive/controller.py:227-262 | a shared URL is admitted by the listeners of every node it stands for |
| Admission.HysteriaSharesAdmitted | hexrift/inbounds/hysteria.py:45-66 | every Hysteria URL is admitted by its listener, material included |
| Admission.SharedHysteriaAdmitted | hexrift/components/derive/controller.py:195-225 | a shared Hysteria URL is admitted by every node with the same endpoint material |
| Admission.CdnSharesAdmitted | hexrift/inbounds/cdn.py:50-77 | every CDN URL is admitted by the region's CDN inbound |
| Admission.SharedCdnAdmitted | hexrift/inbounds/cdn.py:50-114 | another node of the region admits the region's CDN URL if and only if its keys have the same encryption |
| ShareRequests.CdnAdmittedByClass | hexrift/components/keys/controller.py:37-75 | after any run of the key store, every node of the region with equal key settings admits that URL |
| ShareRequests.ListenersBuild | hexrift/inbounds/xhttp.py:148-189 | on accepted configs with one security in the defaults, every hub node's direct and Hysteria listeners can be built from its keys |
| ShareRequests.AcceptedRequests | hexrift/components/derive/controller.py:264-331 | on such configs a request that resolves succeeds if and only if the nodes it looks at have stored keys and one of them has a listener of the kind |
| ShareRequests.BuildShareUrls | hexrift/components/derive/controller.py:264-331 | succeeds exactly when the request resolves, every listener it looks at can be built and one is there; every URL is then made for a covered node and the very inbound that node builds, which admits it; it dials that node's hostname, or the CDN's hub domain, with path, host, sni, short id and endpoint material from the config; every covered node is served, and no region gets two URLs for one listener |
| ShareRequests.ResolvedIff | hexrift/components/derive/controller.py:281-316 | on accepted configs a request resolves if and only if its user is there, has the kind's access, and the identity asked for is the user's own |
| Admission.ResolveIdentity | hexrift/components/derive/controller.py:67-93 | a request resolves to the server identity, the named guest or the user, exactly when the two are not both asked for, and the user has the server access or the guest |
| ShareRequests.CoveredNodes | hexrift/components/derive/controller.py:95-102 | a request covers exactly the hub nodes of the config, or the one it names |
| ShareRequests.PairsInOrder | hexrift/components/derive/controller.py:95-102 | regions are covered in file order |
| ShareRequests.NodesInOrder | hexrift/components/derive/controller.py:95-102 | and a region's nodes in theirs |
| Keys.KeyDirectory.GenKeys | hexrift/components/keys/controller.py:25-75 | the store after one call: skipped, copied from the first matching sibling, generated, or rewritten with its class; unknown nodes are an error; a call that reports success has stored the node's keys |
| Keys.NextStores | hexrift/components/keys/controller.py:37-69 | a call that is not skipped stores the node: unforced on a hub the entry of its first stored sibling with equal key settings, otherwise fresh keys, with the encryption pair if enabled and `none` if not |
| Keys.KeysSharedWithinClasses | hexrift/components/keys/controller.py:25-75 | after any run from an empty store, two stored nodes hold equal keys if and only if they are the same node or hub siblings with equal resolved key settings |
| Keys.CallKeepsSharing | hexrift/components/keys/controller.py:37-75 | one call, forced or not, keeps that invariant |
| Keys.UnforcedKeepsEntries | hexrift/components/keys/controller.py:34-55 | an unforced call alters no entry and adds at most the named node |
| Keys.ForcedRewritesClass | hexrift/components/keys/controller.py:69-75 | a forced call rewrites exactly the node's class |
| JsonText.UnescapeEscape | hexrift/components/render/xray.py:199-199 | decoding an escaped string gives the string (section 7 of RFC 8259) |
| JsonText.LexDump | hexrift/components/render/xray.py:199-199 | the pretty-printed text lexes to the tokens of the value |
| JsonParse.ParseTokens | hexrift/components/render/xray.py:199-199 | a reference parser reads those tokens back as the value |
| Compaction.MatchUnique | hexrift/components/render/xray.py:204-219 | at one place the pattern matches in at most one way, so backtracking order is immaterial |
| Compaction.PatternBody | hexrift/components/render/xray.py:204-204 | in a text that lexes, the pattern's string alternative never ends at an escaped quote, though it knows no escapes |
| Compaction.CollapseText | hexrift/components/render/xray.py:206-209 | splitting, stripping and joining the captured group puts exactly the items on one line |
| Compaction.CompactKeepsTokens | hexrift/components/render/xray.py:204-220 | for every text that lexes, compaction changes no token |
| Compaction.SerializeParses | hexrift/components/render/xray.py:198-221 | compact or not, the written text parses to the rendered value |
| SerializedForm.SerializeIsLaid | hexrift/components/render/xray.py:198-221 | the written text is that of one recursive printer: with compaction on lines of 80 columns, without it on none |
| SerializedForm.ArrayLines | hexrift/components/render/xray.py:210-220 | a non-empty array of simple items below the top level stands on one line if and only if compaction is on and that line ends by column 80, and otherwise takes a line per item |
| SerializedForm.PlainLines | hexrift/components/render/xray.py:198-201 | without compaction every value inside starts behind its own line's indentation and key, and ends its line |
| SerializedForm.SimpleIs | hexrift/components/render/xray.py:204-204 | the items that may share a line: no exponent in a number, no quote inside a string, nothing nested |
| SerializedForm.OneFinalBreak | hexrift/components/render/xray.py:201-221 | both forms end in exactly one line break |
| CompactLayout.CollapsedArraysFit | hexrift/components/render/xray.py:210-214 | each collapsed array ends within column 80 of its line in the compacted text |
| CompactLayout.SimpleArrayCollapses | hexrift/components/render/xray.py:216-220 | an array of simple scalars below the top level is written on one line exactly when that line ends by column 80 |
| TextLines.RenderRestores | hexrift/components/topology/edit.py:147-150 | rendering the split lines gives the text back if and only if its line endings are uniform |
| TextLines.LineEnds | hexrift/components/topology/edit.py:147-150 | a line ends at its first boundary character, CR LF being one boundary, and the rest is split on |
| Text.SpaceIs | hexrift/components/topology/edit.py:448-478 | blank space is that of `str.strip` and `str.isspace`, character by character |
| TextLines.SplitRendered | hexrift/components/topology/edit.py:249-250 | written lines read back as themselves |
| LineSplice.ContentEnd | hexrift/components/topology/edit.py:472-477 | the end of a span without its trailing blank and comment lines |
| LineSplice.FlowGone | hexrift/components/topology/edit.py:335-338 | stripping an empty `[]` removes exactly it and the blank space left at the end of the line |
| LineSplice.DashLine | hexrift/components/topology/edit.py:351-357 | the last line of the range with a `-` at the column, else the first key's line |
| LineSplice.DashIs | hexrift/components/topology/edit.py:448-450 | an item's line has its `-` right at the indentation, alone or before blank space |
| LineSplice.LineList.DeleteSpans | hexrift/components/topology/edit.py:245-246 | bottom-up deletion keeps exactly the rows in no span |
| LineSplice.DeletionOrder | hexrift/components/topology/edit.py:245-246 | deleting separate spans in descending order keeps exactly the rows in none of them |
| ItemSpans.Spans | hexrift/components/topology/edit.py:341-348 | each item runs from its `- ` line to the next item's, the last to the sequence's end |
| ItemSpans.StartsAre | hexrift/components/topology/edit.py:341-357 | the scan finds each item's own `- ` line whatever lines stand before its first key |
| ItemSpans.SpansAreItems | hexrift/components/topology/edit.py:341-357 | the computed spans are, for every item, its own lines and the trivia below them |
| Locating.Locate | hexrift/components/topology/edit.py:152-160 | the positions computed from the parser's marks are the ones the editor's theorems take |
| Editor.DeletedSegments | hexrift/components/topology/edit.py:239-246 | deleting the lines of some segments removes exactly those segments of the document |
| Editor.InsertRows | hexrift/components/topology/edit.py:211-212 | inserting rows at a segment boundary inserts the segments |
| Outline.ContentEndIs | hexrift/components/topology/edit.py:472-477 | an item's content ends at its last own line; trivia after it belongs to what follows |
| EditFacts.GoneDangles | hexrift/components/topology/edit.py:230-235 | the id set of the removal holds exactly the destinations that would name nothing once the node is gone |
| EditFacts.DestinationsInOrder | hexrift/components/topology/edit.py:235-236 | reported destinations stand in the order of their first occurrence |
| TopologyFile.Topology.Remove | hexrift/components/topology/edit.py:224-247 | refused exactly when the nodes or routes cannot be edited or an item to delete does not start with a dash; otherwise the text is the document without exactly the node, dead routes, an emptied `hub_routes:` and a fallback naming the node, and the destinations dropped are reported |
| TopologyFile.Topology.RemoveNode | hexrift/components/topology/edit.py:215-222 | removes the first node with the id in file order, or reports it missing |
| TopologyFile.Topology.AddTo | hexrift/components/topology/edit.py:204-213 | refused without a key or beside differently indented siblings; otherwise the text is the document with the node in its place and the fallback pinned |
| TopologyFile.Topology.Create | hexrift/components/topology/edit.py:193-202 | a new region follows the last one after a blank line, or stands first under `regions:` |
| TopologyFile.Topology.AddNode | hexrift/components/topology/edit.py:186-213 | reports a known id exactly when some reported node has it, rejects mismatched types and uneditable regions, and otherwise adds to the region or creates it |
| WellFormedEdits.AddedWellFormed | hexrift/components/topology/edit.py:204-213 | adding keeps the document well-formed, so runs of edits stay in the model |
| WellFormedEdits.CreatedFirstWellFormed | hexrift/components/topology/edit.py:193-202 | so does creating the first region of a file |
| WellFormedEdits.CreatedAfterWellFormed | hexrift/components/topology/edit.py:193-202 | so does creating a further region |
| DashLines.RemovedWellFormedIff | hexrift/components/topology/edit.py:224-247 | where a region's texts start with a dash only on its `- ` line, removing a node keeps the document well-formed if and only if it drops no fallback on such a line |
| DashLines.DashedRegionBreaks | hexrift/components/topology/edit.py:242-244 | a document whose region opens with its fallback: removing the node it names leaves no region |
| RoundTrip.RestoresDocument | hexrift/components/topology/edit.py:202-247 | for every region with a key, adding then removing a node gives the document back if and only if the key had no `[]`, nothing got pinned and nothing names what the removal drops |
| EditorRuns.FoundAgain | hexrift/components/topology/edit.py:215-222 | on the file read back, looking up the new id finds the added node |
| EditorRuns.AddThenRemoveFile | hexrift/components/topology/edit.py:202-250 | removing it by that id is refused if and only if the routes cannot be edited or an item to delete does not start with a dash, and otherwise writes the old text if and only if nothing in the file names what the removal drops |
| RoundTrip.AddThenRemoveText | hexrift/components/topology/edit.py:249-250 | with uniform line endings the file itself comes back |
| RoundTrip.WrittenReadsBack | hexrift/components/topology/edit.py:147-150 | an edited file parses to the very lines that were written, with the same line ending |
| References.RemovalKeepsRoutes | hexrift/components/topology/edit.py:230-241 | if all hub routes were valid before a removal, the remaining ones are after it, even when node and region ids coincide and when the region becomes empty |
| References.DestinationDies | hexrift/components/topology/edit.py:230-241 | with distinct node ids, a removal drops a route if and only if its destination is no longer acceptable after it, or is a special one the node was named like |
| SpecialNames.DirectRouteDropped | hexrift/components/topology/edit.py:230-235 | a document where removing the node `direct` deletes the route to `direct`, which is valid before and after |
| References.RoutesKeyGoes | hexrift/components/topology/edit.py:240-241 | the `hub_routes:` key goes if and only if the removal takes the last routes |
| References.RemovalKeepsFallbacks | hexrift/components/topology/edit.py:242-244 | if all fallbacks named a node of their region before, they do after |
| References.DefaultSurvives | hexrift/components/schema/models/root.py:351-360 | the default destination stays valid if and only if the removal does not empty the region it names |
| NaturalOrder.KeyAlternates | hexrift/components/topology/edit.py:19-20 | natural keys alternate text and number, starting with text |
| NaturalOrder.NeverMixes | hexrift/components/topology/edit.py:19-20 | comparing two keys never mixes text with numbers |
| NaturalOrder.NaturalPreorder | hexrift/components/topology/edit.py:19-20 | natural order is a total preorder of ids |
| NaturalOrder.NumberedOrder | hexrift/components/topology/edit.py:19-20 | ids that differ in one number are ordered by it, ascending |
| NaturalOrder.NumbersDecide | hexrift/components/topology/edit.py:19-20 | behind equal text the numbers' values decide, however they are written, and then the rest |
| NaturalOrder.TextDecides | hexrift/components/topology/edit.py:19-20 | at the first character that differs the smaller one comes first |
| NaturalOrder.ShorterFirst | hexrift/components/topology/edit.py:19-20 | an id comes before its own text continued |
| NaturalOrder.NumberBeforeText | hexrift/components/topology/edit.py:19-20 | where one continues with a number and the other with text, the number comes first |
| NaturalOrder.TiesAreEqualKeys | hexrift/components/topology/edit.py:19-20 | ids tie exactly when their keys are equal |
| NaturalOrder.InsertKeepsSorted | hexrift/components/topology/edit.py:436-445 | inserting after the last smaller sibling keeps a sorted list sorted |
| SiblingOrder.AddedIds | hexrift/components/topology/edit.py:436-445 | the node lands among its siblings right after the last one that comes before it |
| SiblingOrder.HighestLandsLast | hexrift/components/topology/edit.py:436-445 | a node numbered above all its like-named siblings lands last |
| SiblingOrder.AddKeepsOrder | hexrift/components/topology/edit.py:436-445 | a region's nodes sorted by natural order stay sorted |
| FallbackStable.PinIsLead | hexrift/components/topology/edit.py:395-401 | the name the editor pins is the node the compiler resolves |
| FallbackStable.PinnedStays | hexrift/components/derive/topology.py:96-107 | pinning keeps the resolved tag if and only if the region has a primary |
| FallbackStable.UnpinnedDrifts | hexrift/components/topology/edit.py:398-399 | unpinned, the resolved tag moves if and only if the new node takes the lead |
| FallbackStable.MoveKeeps | hexrift/components/topology/edit.py:186-213 | one addition anywhere keeps a balanced region's resolved fallback tag |
| FallbackStable.RunKeepsFallback | hexrift/components/topology/edit.py:395-401 | over any run of additions the fallback tag the compiler resolves never changes |

## Left out

- RootValidator.ValidateReferences: does not fix which error is reported first, only that one is reported exactly when the config is not accepted; sets and dicts are iterated in one fixed order.
- WireguardConfigs.BuildWireguardConfigs: gives the fields of the config file, not its rendered text; subnet parsing is a parameter that succeeds on validated subnets.
- Reachability.PortalReached: speaks of rules by first match on abstract matcher hits; Xray's own matcher internals and domain strategies are not modelled.
- Sockets.ListenersDistinct: counts the mixed proxy inbound as TCP only, as the validator does, and asks that each node's full wireguard settings resolve.
- Compaction.CompactKeepsTokens: reads the pattern's `\d` as ASCII digits; other digits never occur outside strings of a text that lexes.
- JsonText.UnescapeEscape: the reference decoder takes `\u` escapes below the surrogates only, which covers everything the printer writes.
- NaturalOrder.NeverMixes: reads digits as ASCII digits, as identifiers are; an unvalidated id with other digits is outside the model.
- FallbackStable.RunKeepsFallback: asks for distinct node ids in the region and a fallback that names one of them, as the validator does.
- EditorRuns.AddThenRemoveFile: covers regions whose key has no empty `[]` and no fallback to pin; there the document itself does not come back (`RoundTrip.RestoresDocument`).
- DashLines.RemovedWellFormedIff: asks that a region's texts start with a dash only on its `- ` line; a text that starts with one elsewhere could stand in for the dropped line.
- Selection.SelectionIff: how a balancer chooses among what its selector picks is Xray's.
- PyYAML: composition, anchors, quoting and flow styles are replaced by the contract on reported positions (`Outline.Reported`); keys the editor deletes or inserts under are on one line each.
- Rendered text of a new node or region, and scalar quoting, are parameters of the edits.
- Pydantic field validation is taken as given: identifier charsets, non-empty lists, matchers present.
- Cryptography, hash functions, certificates and endpoint derivation are uninterpreted.
- File access, atomic writes, the command line, reports, HAProxy templates and batch rendering.
- Exit node configs beyond client lists, static JSON blocks, bandwidth arithmetic, DNS strategies, observatory settings.
- Percent-encoding of share URLs, and requests for all guests at once, which repeat the single one.
