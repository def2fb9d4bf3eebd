/** An accepted config whose balancer picks a neighbouring region's node and passes over its own. */
module Neighbours {
  import opened Base
  import opened Names
  import opened Schema
  import opened Resolve
  import opened Acceptance
  import opened Routing
  import opened Closure
  import opened Selection
  import Strangers

  const XHTTP := XhttpConfig("/x", None)
  const AMS := ExitNode("ams-1")
  const ROT := ExitNode("rot-1")
  const OTHER := ExitNode("nl2-1")
  const NL := ExitRegion("nl", [AMS, ROT], None, None, Some(1), None, None, Some("random"), None, None, [])
  const NL2 := ExitRegion("nl2", [OTHER], None, None, Some(2), None, None, None, None, None, [])

  function ExitNode(id: string): Node {
    Node(id, "x.acme.net", None, Some(Strangers.REALITY), None, None, None, None, false, None, None, None)
  }

  /** A hub and two exit regions, `nl` balanced over two nodes. */
  const NEIGHBOURS := Strangers.LEAKY.(
    users := [Strangers.BOB], portals := [],
    exitDefaults := ExitDefaults(false, Strangers.KEYS, Some(XHTTP), None, None),
    regions := [Strangers.HUB, NL, NL2])

  // Views -----------------------------------------------------------------------------------

  lemma Three<T>(a: T, b: T, c: T)
    ensures [a, b, c][..2] == [a, b] && [a, b][..1] == [a] && [a][..0] == []
  {
  }

  lemma AllNodes()
    ensures NodesOf(NEIGHBOURS.regions) == [Strangers.HUB_NODE, AMS, ROT, OTHER]
  {
    Three(Strangers.HUB, NL, NL2);
    assert NodesOf([Strangers.HUB]) == [Strangers.HUB_NODE];
    assert NodesOf([Strangers.HUB, NL]) == [Strangers.HUB_NODE] + [AMS, ROT];
    assert NodesOf([Strangers.HUB, NL, NL2]) == [Strangers.HUB_NODE, AMS, ROT] + [OTHER];
  }

  lemma Distinct(a: string, b: string, c: string, d: string)
    requires a != "" && b != "" && c != "" && d != ""
    requires a[0] != b[0] && a[0] != c[0] && a[0] != d[0] && b[0] != c[0] && b[0] != d[0] && c[0] != d[0]
    ensures NoDup([a, b, c, d])
  {
  }

  lemma DistinctNodes()
    ensures NoDup(NodeIds(NodesOf(NEIGHBOURS.regions)))
  {
    AllNodes();
    assert NodeIds(NodesOf(NEIGHBOURS.regions)) == ["h1", "ams-1", "rot-1", "nl2-1"];
    Distinct("h1", "ams-1", "rot-1", "nl2-1");
  }

  lemma DistinctRegions()
    ensures NoDup(RegionIds(NEIGHBOURS.regions))
  {
    assert RegionIds(NEIGHBOURS.regions) == ["hub", "nl", "nl2"];
    assert "hub"[0] == 'h' && "nl"[0] == 'n' && "nl2"[0] == 'n' && |"nl"| == 2 && |"nl2"| == 3;
  }

  lemma DistinctVless()
    ensures NoDup(VlessRoutes(NEIGHBOURS.regions))
  {
    Three(Strangers.HUB, NL, NL2);
    var hub, nl := [Strangers.HUB], [Strangers.HUB, NL];
    assert hub[0] == Strangers.HUB && nl[1] == NL && NEIGHBOURS.regions[2] == NL2;
    assert VlessRoutes(hub) == FlatMap(VlessOf(), hub[..0]) + RegionVless(Strangers.HUB) == [];
    assert VlessRoutes(nl) == VlessRoutes(hub) + RegionVless(NL) == [1];
    assert VlessRoutes(NEIGHBOURS.regions) == VlessRoutes(nl) + RegionVless(NL2) == [1, 2];
  }

  // Acceptance ------------------------------------------------------------------------------

  /** An exit region that leaves everything optional to the defaults. */
  lemma PlainExit(c: Config, r: Region, n: Node)
    requires r.ExitRegion? && c.cdn.None? && c.exitDefaults.xhttp.Some? && c.exitDefaults.metrics.None? && !c.metrics.enabled
    requires r.hysteria.None? && r.protocol.None? && r.xhttp.None?
    requires n.hysteria.None? && n.xhttp.None? && n.metrics.None?
    ensures NodeOk(c, r, n) && NodeXhttp(n, r, c).Ok? && Reserved(c, r, n) == [Socket(443, Tcp)]
  {
  }

  lemma ExitsOk(r: Region)
    requires r == NL || r == NL2
    ensures RegionOk(NEIGHBOURS, r) && forall n :: n in r.nodes ==> Reserved(NEIGHBOURS, r, n) == [Socket(443, Tcp)]
  {
    forall n | n in r.nodes
      ensures NodeOk(NEIGHBOURS, r, n) && ExitNodeOk(n) && NodeXhttp(n, r, NEIGHBOURS).Ok?
      ensures Reserved(NEIGHBOURS, r, n) == [Socket(443, Tcp)]
    {
      PlainExit(NEIGHBOURS, r, n);
    }
  }

  lemma HubOkToo()
    ensures RegionOk(NEIGHBOURS, Strangers.HUB)
    ensures Reserved(NEIGHBOURS, Strangers.HUB, Strangers.HUB_NODE) == [Socket(443, Tcp)]
  {
    assert RegionTls(Strangers.HUB, NEIGHBOURS.hubDefaults) == Ok(None);
    assert NodeHysteria(Strangers.HUB_NODE, Strangers.HUB, NEIGHBOURS).None?;
  }

  lemma OneOfThree(r: Region)
    requires r in NEIGHBOURS.regions
    ensures r == Strangers.HUB || r == NL || r == NL2
  {
  }

  lemma AllRegionsOk()
    ensures RegionsOk(NEIGHBOURS) && SocketsOk(NEIGHBOURS)
  {
    DistinctNodes();
    DistinctRegions();
    DistinctVless();
    forall r | r in NEIGHBOURS.regions
      ensures RegionOk(NEIGHBOURS, r) && forall n :: n in r.nodes ==> Reserved(NEIGHBOURS, r, n) == [Socket(443, Tcp)]
    {
      OneOfThree(r);
      if r == Strangers.HUB { HubOkToo(); } else { ExitsOk(r); }
    }
  }

  lemma PeopleFine()
    ensures PeopleOk(NEIGHBOURS) && PortalsOk(NEIGHBOURS) && RoutingOk(NEIGHBOURS)
  {
    assert GroupIds(NEIGHBOURS.groups)[0] == "all";
  }

  lemma Idents()
    ensures IsIdent("hub") && IsIdent("nl") && IsIdent("nl2") && IsIdent("h1")
    ensures IsIdent("ams-1") && IsIdent("rot-1") && IsIdent("nl2-1")
  {
  }

  lemma FieldsFine()
    ensures FieldsValid(NEIGHBOURS)
  {
    Idents();
    forall r | r in NEIGHBOURS.regions ensures IsIdent(r.id) && forall n :: n in r.nodes ==> IsIdent(n.id) { OneOfThree(r); }
  }

  lemma NeighboursAccepted()
    ensures Accepted(NEIGHBOURS) && FieldsValid(NEIGHBOURS)
  {
    AllRegionsOk();
    PeopleFine();
    FieldsFine();
  }

  // What the balancer picks -----------------------------------------------------------------

  lemma BothRendered()
    ensures NL in Rendered(NEIGHBOURS.regions) && NL2 in Rendered(NEIGHBOURS.regions)
  {
    assert NEIGHBOURS.regions[1] == NL && NEIGHBOURS.regions[2] == NL2;
  }

  lemma NlBalancer()
    ensures BalancerDef("lb-nl", "nl", "ams-1", "random") in Balancers(NEIGHBOURS)
  {
    BothRendered();
    assert RegionBalancers()(NL)[0] == BalancerDef("lb-nl", "nl", "ams-1", "random");
    BalancerIn(NEIGHBOURS, NL, RegionBalancers()(NL)[0]);
  }

  lemma NlStarts()
    ensures "nl" <= "nl2-1" && !("nl" <= "ams-1") && !("nl" <= "rot-1")
  {
    assert "nl"[0] == 'n' && "ams-1"[0] == 'a' && "rot-1"[0] == 'r';
  }

  /**
   * On this accepted config the balancer of `nl` picks the link of `nl2-1`, a node of region `nl2`,
   * and neither of its own.
   */
  lemma NlPicksNl2()
    ensures Accepted(NEIGHBOURS) && FieldsValid(NEIGHBOURS)
    ensures BalancerDef("lb-nl", "nl", "ams-1", "random") in Balancers(NEIGHBOURS)
    ensures Link("nl2-1", "nl2", "nl2-1", false) in Links(NEIGHBOURS) && "nl" <= "nl2-1"
    ensures OwnLink(NL, Link("ams-1", "nl", "ams-1", false)) && Link("ams-1", "nl", "ams-1", false) in Links(NEIGHBOURS) && !("nl" <= "ams-1")
    ensures OwnLink(NL, Link("rot-1", "nl", "rot-1", false)) && Link("rot-1", "nl", "rot-1", false) in Links(NEIGHBOURS) && !("nl" <= "rot-1")
  {
    NeighboursAccepted();
    NlBalancer();
    BothRendered();
    PrimaryIn(NEIGHBOURS, NL2, OTHER);
    PrimaryIn(NEIGHBOURS, NL, AMS);
    PrimaryIn(NEIGHBOURS, NL, ROT);
    NlStarts();
  }
}
