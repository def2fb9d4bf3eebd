/** Who can pass for a portal member: guests, server identities and portals against the members' emails. */
module Strangers {
  import opened Base
  import opened Names
  import opened Schema
  import opened Resolve
  import opened Acceptance
  import opened Rules
  import opened Routing
  import opened HubBuilder
  import opened Router
  import opened Reachability

  /** Email of a guest, of a server identity or of a portal. */
  ghost predicate StrangerEmail(c: Config, email: string) {
    || (exists owner, alias :: owner in c.users && alias in Aliases(owner) && email == At(alias, owner.username))
    || (exists other :: other in c.portals && email == PortalEmail(c.namespace, other.id))
  }

  /** Local parts of the emails of a user's guests and server identity, whose domain is the username. */
  function Aliases(u: User): seq<string> { u.guests + [u.username + SERVER_SUFFIX] }

  ghost predicate MemberEmail(c: Config, portal: Portal, email: string) {
    exists u :: u in portal.users && email == UserEmail(c.namespace, u)
  }

  /** No user named like the namespace has a guest, or server identity, labelled like a member. */
  ghost predicate MembersClear(c: Config, portal: Portal) {
    forall u, alias :: u in c.users && u.username == c.namespace && alias in Aliases(u) ==> alias !in portal.users
  }

  lemma AliasIsNoMember(c: Config, portal: Portal, owner: User, alias: string)
    requires FieldsValid(c) && portal in c.portals && MembersClear(c, portal) && owner in c.users && alias in Aliases(owner)
    ensures !MemberEmail(c, portal, At(alias, owner.username))
  {
    IdentHasNoAt(owner.username);
    if alias in owner.guests { IdentHasNoAt(alias); }
    forall u | u in portal.users ensures At(alias, owner.username) != UserEmail(c.namespace, u) {
      IdentHasNoAt(u);
      AtInjective(alias, owner.username, u, c.namespace);
    }
  }

  lemma PortalIsNoMember(c: Config, portal: Portal, other: Portal)
    requires FieldsValid(c) && portal in c.portals && other in c.portals
    ensures !MemberEmail(c, portal, PortalEmail(c.namespace, other.id))
  {
    IdentHasNoAt(other.id);
    assert |PORTAL_DOMAIN + c.namespace| > |c.namespace|;
    forall u | u in portal.users ensures PortalEmail(c.namespace, other.id) != UserEmail(c.namespace, u) {
      IdentHasNoAt(u);
      AtInjective(other.id, PORTAL_DOMAIN + c.namespace, u, c.namespace);
    }
  }

  lemma StrangerIsNoMember(c: Config, portal: Portal, email: string)
    requires FieldsValid(c) && portal in c.portals && MembersClear(c, portal) && StrangerEmail(c, email)
    ensures !MemberEmail(c, portal, email)
  {
    if owner, alias :| owner in c.users && alias in Aliases(owner) && email == At(alias, owner.username) {
      AliasIsNoMember(c, portal, owner, alias);
    } else {
      var other :| other in c.portals && email == PortalEmail(c.namespace, other.id);
      PortalIsNoMember(c, portal, other);
    }
  }

  /**
   * Guests, server identities and portals share no email with a member exactly when no user named
   * like the namespace has a guest, or server identity, labelled like a member.
   */
  lemma StrangersAreNoMembers(c: Config, portal: Portal)
    requires FieldsValid(c) && portal in c.portals
    ensures (forall email :: StrangerEmail(c, email) ==> !MemberEmail(c, portal, email)) <==> MembersClear(c, portal)
  {
    if MembersClear(c, portal) {
      forall email | StrangerEmail(c, email) ensures !MemberEmail(c, portal, email) { StrangerIsNoMember(c, portal, email); }
    } else {
      var u, alias :| u in c.users && u.username == c.namespace && alias in Aliases(u) && alias in portal.users;
      assert StrangerEmail(c, At(alias, u.username)) && MemberEmail(c, portal, UserEmail(c.namespace, alias));
    }
  }

  /** Then guests, server identities and portals' own identities reach a portal only through a published port. */
  lemma StrangersNeedPublishedPort(c: Config, node: string, portal: Portal, p: Packet)
    requires Accepted(c) && FieldsValid(c) && MembersClear(c, portal) && node in HubNodeIds(c) && portal in c.portals
    requires StrangerEmail(c, p.user)
    ensures FirstMatch(HubRules(c, NodePublishes(c.portals, node)), p) == Some(Outbound(PortalTag(portal.id)))
            <==> Published(node, portal, p)
  {
    StrangerIsNoMember(c, portal, p.user);
    PortalReached(c, node, portal, p);
  }

  // A config that leaks ---------------------------------------------------------------------

  const HOME := Portal("home", ["bob"], ["geosite:home"], [], None, [], false)
  const BOB := User("bob", "all", {Access.Xhttp}, None, [])
  const ACME := User("acme", "all", {Access.Xhttp}, None, ["bob"])
  const HUB_NODE := Node("h1", "h1.acme.net", None, None, None, None, None, None, false, None, None, None)
  const HUB := HubRegion("hub", [HUB_NODE], None, None, None, None)
  const KEYS := KeysConfig(true, "native", "600s", "x25519", None)
  const REALITY := Reality(HostPort("www.acme.net:443", "www.acme.net"), [], FallbackLimits(0, 0, 0))

  /** A user named like the namespace `acme`, with a guest labelled like the portal's member `bob`. */
  const LEAKY := Config(
    "acme", "1.1.1.1", 53, None, MetricsConfig(false, 11111),
    ExitDefaults(false, KEYS, None, None, None),
    HubDefaults(false, false, KEYS, Some(REALITY), None, Some(XhttpConfig("/x", None)), None, None, None, None),
    [Group("all", None)], [BOB, ACME], [HOME], [], [], DIRECT, [HUB])

  lemma OneRegion()
    ensures Hubs(LEAKY.regions) == [HUB] && Exits(LEAKY.regions) == [] && Rendered(LEAKY.regions) == []
    ensures NodesOf(LEAKY.regions) == [HUB_NODE] && NodesOf([HUB]) == [HUB_NODE] && HubNodeIds(LEAKY) == ["h1"]
    ensures NodeIds([HUB_NODE]) == ["h1"] && RegionIds(LEAKY.regions) == ["hub"]
  {
    assert LEAKY.regions[..0] == [] && [HUB][..0] == [];
  }

  lemma LeakyNode()
    ensures RegionTls(HUB, LEAKY.hubDefaults) == Ok(None) && NodeXhttp(HUB_NODE, HUB, LEAKY).Ok?
    ensures NodeHysteria(HUB_NODE, HUB, LEAKY).None?
  {
  }

  lemma LeakyRegions()
    ensures RegionsOk(LEAKY)
  {
    OneRegion();
    LeakyNode();
    LeakyVless();
    assert RegionOk(LEAKY, HUB);
  }

  lemma LeakyVless()
    ensures VlessRoutes(LEAKY.regions) == []
  {
    assert LEAKY.regions[..0] == [] && LEAKY.regions[0] == HUB;
    assert VlessRoutes(LEAKY.regions) == FlatMap(VlessOf(), LEAKY.regions[..0]) + VlessOf()(HUB);
  }

  lemma LeakySockets()
    ensures SocketsOk(LEAKY)
  {
    LeakyNode();
    assert Reserved(LEAKY, HUB, HUB_NODE) == [Socket(443, Tcp)];
  }

  lemma LeakyPeople()
    ensures PeopleOk(LEAKY) && Usernames(LEAKY.users) == ["bob", "acme"]
  {
    assert Usernames(LEAKY.users) == ["bob", "acme"] && GroupIds(LEAKY.groups) == ["all"];
    assert GroupIds(LEAKY.groups)[0] == "all";
  }

  lemma PrefixedDiffer(t: string, id: string)
    requires |t| > 1 && t[0] == 'h'
    ensures t != BACKUP_PREFIX + id && t != WARP_PREFIX + id && t != WARP_PREFIX + BACKUP_PREFIX + id
    ensures t != LB_PREFIX + id && t != LB_WARP_PREFIX + id && !IsSpecial(t)
  {
    assert (BACKUP_PREFIX + id)[0] == 'b' && (WARP_PREFIX + id)[0] == 'w' && (WARP_PREFIX + BACKUP_PREFIX + id)[0] == 'w';
    assert (LB_PREFIX + id)[0] == 'l' && (LB_WARP_PREFIX + id)[0] == 'l';
  }

  lemma Underived(rs: seq<Region>, t: string)
    requires |t| > 1 && t[0] == 'h' && forall n :: n in NodesOf(rs) ==> t != n.id
    ensures !IsDerivedTag(rs, t)
  {
    forall id: string
      ensures t != BACKUP_PREFIX + id && t != WARP_PREFIX + id && t != WARP_PREFIX + BACKUP_PREFIX + id
      ensures t != LB_PREFIX + id && t != LB_WARP_PREFIX + id && !IsSpecial(t)
    {
      PrefixedDiffer(t, id);
    }
  }

  lemma Unlike(t: string)
    requires |t| > 1 && t[1] == 'o'
    ensures t != "h1" && t != "hub"
  {
  }

  lemma OneNode(ns: seq<Node>, n: Node, t: string)
    requires ns == [n] && n.id != t
    ensures forall m :: m in ns ==> t != m.id
  {
  }

  lemma HomeTag()
    ensures var t := PortalTag("home"); |t| > 1 && t[0] == 'h' && t[1] == 'o'
  {
  }

  lemma LeakyTag()
    ensures !IsDerivedTag(LEAKY.regions, PortalTag("home"))
  {
    OneRegion();
    HomeTag();
    var t := PortalTag("home");
    Unlike(t);
    OneNode(NodesOf(LEAKY.regions), HUB_NODE, t);
    Underived(LEAKY.regions, t);
  }

  lemma LeakyMember()
    ensures MemberOk(LEAKY, "bob")
  {
    LeakyPeople();
    LeakyNode();
    assert Access.Xhttp in HubRendered(LEAKY, HUB, HUB_NODE);
    assert IsRendered(LEAKY, Access.Xhttp) by { assert HUB in LEAKY.regions && HUB_NODE in HUB.nodes; }
    assert Routable(LEAKY, BOB) by { assert Access.Xhttp in BOB.access && Access.Xhttp in RoutableAccess; }
    assert Usernames(LEAKY.users)[0] == "bob";
  }

  lemma NameFree(rs: seq<Region>, n: Node, id: string)
    requires NodesOf(rs) == [n] && n.id == "h1" && RegionIds(rs) == ["hub"] && |id| > 1 && id[1] == 'o'
    ensures id !in NodeIds(NodesOf(rs)) && id !in RegionIds(rs)
  {
    Unlike(id);
  }

  lemma HomeName()
    ensures |HOME.id| > 1 && HOME.id[1] == 'o' && !IsSpecial(HOME.id)
  {
    assert HOME.id[0] == 'h' && DIRECT[0] == 'd' && BLOCKED[0] == 'b' && WARP[0] == 'w';
  }

  lemma LeakyName()
    ensures HOME.id !in NodeIds(NodesOf(LEAKY.regions)) && HOME.id !in RegionIds(LEAKY.regions) && !IsSpecial(HOME.id)
  {
    OneRegion();
    HomeName();
    NameFree(LEAKY.regions, HUB_NODE, HOME.id);
  }

  lemma LeakyPortal()
    ensures PortalOk(LEAKY, HOME)
  {
    LeakyName();
    LeakyTag();
    LeakyMember();
    assert HOME.users == ["bob"] && HOME.publish == [];
    assert forall r :: r in LEAKY.regions ==> r == HUB;
  }

  lemma LeakyPortals()
    ensures PortalsOk(LEAKY)
  {
    OneRegion();
    LeakyPortal();
    LeakyClaims();
    assert PortalIds(LEAKY.portals) == ["home"];
  }

  lemma LeakyClaims()
    ensures Claims(LEAKY, LEAKY.portals) == []
  {
    assert LEAKY.portals[..0] == [];
    assert Claims(LEAKY, LEAKY.portals) == Claims(LEAKY, []) + PublishClaims(LEAKY, []);
  }

  lemma LeakyIdents()
    ensures IsIdent("bob") && IsIdent("acme") && IsIdent("home") && IsIdent("hub") && IsIdent("h1") && IsDnsName("acme")
  {
  }

  lemma LeakyFields()
    ensures FieldsValid(LEAKY)
  {
    LeakyIdents();
  }

  lemma LeakyAccepted()
    ensures Accepted(LEAKY)
  {
    LeakyRegions();
    LeakyPeople();
    LeakySockets();
    LeakyPortals();
    assert RoutingOk(LEAKY);
  }

  /** The guest of `acme` labelled `bob`, on the hub's direct inbound. */
  const LEAK := Packet("direct-xhttp", "bob@acme", 443, None, {}, {"geosite:home"}, {})

  lemma LeakIsStranger()
    ensures StrangerEmail(LEAKY, LEAK.user) && !MembersClear(LEAKY, HOME)
  {
    assert ACME in LEAKY.users && "bob" in Aliases(ACME);
    assert At("bob", "acme") == LEAK.user;
  }

  lemma LeakyPublishes()
    ensures NodePublishes(LEAKY.portals, "h1") == []
  {
    assert LEAKY.portals[..0] == [] && HOME.publish == [];
    assert NodePublishes(LEAKY.portals, "h1") == FlatMap(PortalPorts("h1"), LEAKY.portals[..0]) + PortalPorts("h1")(HOME);
  }

  lemma QuietConfig(c: Config, p: Packet)
    requires Rendered(c.regions) == [] && c.hubRoutes == [] && !IsDns(c, p)
    ensures NothingEarlier(c, [], p)
  {
  }

  lemma LeakUnanswered()
    ensures NothingEarlier(LEAKY, [], LEAK)
  {
    OneRegion();
    assert !IsDns(LEAKY, LEAK);
    QuietConfig(LEAKY, LEAK);
  }

  lemma LeakReaches()
    ensures FirstPortal(LEAKY, HOME, LEAK)
  {
    assert IsMember("acme", HOME, LEAK) by { assert "bob" in HOME.users && UserEmail("acme", "bob") == LEAK.user; }
    assert PortalMatches(HOME, LEAK) by { assert "geosite:home" in HOME.domains; }
    assert LEAKY.portals[0] == HOME;
  }

  lemma ReachedByMember(c: Config, node: string, portal: Portal, p: Packet)
    requires Accepted(c) && FieldsValid(c) && portal in c.portals && node in HubNodeIds(c)
    requires NothingEarlier(c, NodePublishes(c.portals, node), p) && FirstPortal(c, portal, p)
    ensures FirstMatch(HubRules(c, NodePublishes(c.portals, node)), p) == Some(Outbound(PortalTag(portal.id)))
  {
    PortalReached(c, node, portal, p);
  }

  lemma NothingPublished(node: string, portal: Portal, p: Packet)
    requires portal.publish == []
    ensures !Published(node, portal, p)
  {
  }

  lemma LeakyPlace()
    ensures HOME in LEAKY.portals && "h1" in HubNodeIds(LEAKY)
  {
    OneRegion();
    assert LEAKY.portals[0] == HOME && HubNodeIds(LEAKY)[0] == "h1";
  }

  /** In an accepted config a guest is routed into a portal it is no member of, through no published port. */
  lemma NamespaceUserLeaksMembership()
    ensures Accepted(LEAKY) && FieldsValid(LEAKY) && HOME in LEAKY.portals && "h1" in HubNodeIds(LEAKY)
    ensures StrangerEmail(LEAKY, LEAK.user) && !MembersClear(LEAKY, HOME) && !Published("h1", HOME, LEAK)
    ensures FirstMatch(HubRules(LEAKY, NodePublishes(LEAKY.portals, "h1")), LEAK) == Some(Outbound(PortalTag("home")))
  {
    LeakyAccepted();
    LeakyFields();
    LeakyPlace();
    NothingPublished("h1", HOME, LEAK);
    LeakIsStranger();
    LeakyPublishes();
    LeakUnanswered();
    LeakReaches();
    ReachedByMember(LEAKY, "h1", HOME, LEAK);
  }
}
