/** Published ports: each leads to its own portal or the blackhole, and concerns nobody else. */
module Confinement {
  import opened Base
  import opened Names
  import opened Schema
  import opened Acceptance
  import opened Rules
  import opened Routing
  import opened HubBuilder
  import opened Router

  lemma PublishesMember(portals: seq<Portal>, node: string, pub: PublishedPort)
    ensures pub in NodePublishes(portals, node) <==>
            exists portal, e :: portal in portals && e in portal.publish && BindsOn(e, node) && pub == ResolveEntry(portal, e)
  {
    FlatMapMember(PortalPorts(node), portals, pub);
    forall portal: Portal
      ensures pub in PortalPorts(node)(portal) <==>
              exists e :: e in portal.publish && BindsOn(e, node) && pub == ResolveEntry(portal, e)
    {
      FlatMapMember(EntryPort(portal, node), portal.publish, pub);
    }
  }

  // One claim, one entry --------------------------------------------------------------------

  lemma {:induction false} EntryClaimIn(c: Config, es: seq<Publish>, e: Publish, x: (string, nat))
    requires e in es && x in EntryClaims(c, e)
    ensures x in PublishClaims(c, es)
  {
    if e in es[..|es| - 1] { EntryClaimIn(c, es[..|es| - 1], e, x); }
  }

  lemma {:induction false} PortalClaimIn(c: Config, ps: seq<Portal>, portal: Portal, x: (string, nat))
    requires portal in ps && x in PublishClaims(c, portal.publish)
    ensures x in Claims(c, ps)
  {
    if portal in ps[..|ps| - 1] { PortalClaimIn(c, ps[..|ps| - 1], portal, x); }
  }

  lemma {:induction false} OneEntryPerClaim(c: Config, es: seq<Publish>, e: Publish, f: Publish, x: (string, nat))
    requires NoDup(PublishClaims(c, es)) && e in es && f in es && x in EntryClaims(c, e) && x in EntryClaims(c, f)
    ensures e == f
  {
    var front, last := es[..|es| - 1], es[|es| - 1];
    NoDupConcat(PublishClaims(c, front), EntryClaims(c, last));
    if e in front { EntryClaimIn(c, front, e, x); }
    if f in front { EntryClaimIn(c, front, f, x); }
    if e in front && f in front { OneEntryPerClaim(c, front, e, f, x); }
  }

  lemma {:induction false} OnePortalPerClaim(c: Config, ps: seq<Portal>, a: Portal, b: Portal, x: (string, nat))
    requires NoDup(Claims(c, ps)) && a in ps && b in ps
    requires x in PublishClaims(c, a.publish) && x in PublishClaims(c, b.publish)
    ensures a == b && NoDup(PublishClaims(c, a.publish))
  {
    var front, last := ps[..|ps| - 1], ps[|ps| - 1];
    NoDupConcat(Claims(c, front), PublishClaims(c, last.publish));
    if a in front { PortalClaimIn(c, front, a, x); }
    if b in front { PortalClaimIn(c, front, b, x); }
    if a in front && b in front { OnePortalPerClaim(c, front, a, b, x); }
  }

  lemma ClaimOf(c: Config, e: Publish, node: string)
    requires BindsOn(e, node) && node in HubNodeIds(c)
    ensures (node, e.port) in EntryClaims(c, e)
  {
    assert node in Scope(c, e);
    var k :| 0 <= k < |Scope(c, e)| && Scope(c, e)[k] == node;
    assert EntryClaims(c, e)[k] == (node, e.port);
  }

  /** On one hub node a port belongs to one entry of one portal. */
  lemma OneOwner(c: Config, node: string, a: Portal, e: Publish, b: Portal, f: Publish)
    requires PortalsOk(c) && node in HubNodeIds(c)
    requires a in c.portals && e in a.publish && BindsOn(e, node)
    requires b in c.portals && f in b.publish && BindsOn(f, node)
    requires e.port == f.port
    ensures a == b && e == f
  {
    var x := (node, e.port);
    ClaimOf(c, e, node);
    ClaimOf(c, f, node);
    EntryClaimIn(c, a.publish, e, x);
    EntryClaimIn(c, b.publish, f, x);
    OnePortalPerClaim(c, c.portals, a, b, x);
    OneEntryPerClaim(c, a.publish, e, f, x);
  }

  /** On one hub node an inbound tag names one published port. */
  lemma TagNamesOnePort(c: Config, node: string, portal: Portal, e: Publish, pub: PublishedPort)
    requires PortalsOk(c) && node in HubNodeIds(c)
    requires portal in c.portals && e in portal.publish && BindsOn(e, node)
    requires pub in NodePublishes(c.portals, node) && pub.tag == PublishTag(portal.id, e.port)
    ensures pub == ResolveEntry(portal, e)
  {
    PublishesMember(c.portals, node, pub);
    var b, f :| b in c.portals && f in b.publish && BindsOn(f, node) && pub == ResolveEntry(b, f);
    PublishTagInjective(portal.id, e.port, b.id, f.port);
    OneOwner(c, node, portal, e, b, f);
  }

  lemma {:induction false} FirstPublish(published: seq<PublishedPort>, pub: PublishedPort, p: Packet)
    requires pub in published && pub.tag == p.inbound
    requires forall q :: q in published && q.tag == p.inbound ==> q == pub
    ensures FirstSome(PublishHit(p), published) == PublishHit(p)(pub)
  {
    var front, last := published[..|published| - 1], published[|published| - 1];
    assert published == front + [last];
    if pub in front {
      FirstPublish(front, pub, p);
    } else {
      FirstSomeMeaning(PublishHit(p), front, Outbound(""));
    }
  }

  /** The answer a published port gives, whatever the rest of the config says. */
  lemma PublishAnswer(c: Config, node: string, portal: Portal, e: Publish, p: Packet)
    requires PortalsOk(c) && node in HubNodeIds(c)
    requires portal in c.portals && e in portal.publish && BindsOn(e, node)
    requires p.inbound == PublishTag(portal.id, e.port)
    ensures FirstSome(PublishHit(p), NodePublishes(c.portals, node)) ==
            Some(Outbound(if e.allow == [] || Any(e.allow, p.sources) then PortalTag(portal.id) else BLOCKED))
  {
    var pubs, pub := NodePublishes(c.portals, node), ResolveEntry(portal, e);
    PublishesMember(c.portals, node, pub);
    forall q | q in pubs && q.tag == p.inbound ensures q == pub { TagNamesOnePort(c, node, portal, e, q); }
    FirstPublish(pubs, pub, p);
  }

  /**
   * A connection on a published inbound reaches its own portal when its source is allowed and is
   * blackholed otherwise: no other rule of the hub can re-steer it.
   */
  lemma PublishedPortConfined(c: Config, node: string, portal: Portal, e: Publish, p: Packet)
    requires Accepted(c) && FieldsValid(c) && node in HubNodeIds(c)
    requires portal in c.portals && e in portal.publish && BindsOn(e, node)
    requires p.inbound == PublishTag(portal.id, e.port)
    ensures FirstMatch(HubRules(c, NodePublishes(c.portals, node)), p) ==
            Some(Outbound(if e.allow == [] || Any(e.allow, p.sources) then PortalTag(portal.id) else BLOCKED))
  {
    RulesImplementRouter(c, NodePublishes(c.portals, node), p);
    PublishAnswer(c, node, portal, e, p);
  }

  /** Publishing changes nothing for connections that arrive on any other inbound. */
  lemma OtherInboundsUntouched(c: Config, published: seq<PublishedPort>, p: Packet)
    requires FieldsValid(c)
    requires forall pub :: pub in published ==> pub.tag != p.inbound
    ensures FirstMatch(HubRules(c, published), p) == FirstMatch(HubRules(c, []), p)
  {
    RulesImplementRouter(c, published, p);
    RulesImplementRouter(c, [], p);
    FirstSomeMeaning(PublishHit(p), published, Outbound(""));
  }

  const BuiltinInbounds: set<string> := {"direct-xhttp", "cdn-xhttp", "mixed-inbound", "xdns", "wireguard-in", "hysteria-in"}

  /** No portal, by whatever id, publishes under the tag of a built-in inbound. */
  lemma BuiltinsAreNotPublished(c: Config, node: string, tag: string, pub: PublishedPort)
    requires tag in BuiltinInbounds && pub in NodePublishes(c.portals, node)
    ensures pub.tag != tag
  {
    PublishesMember(c.portals, node, pub);
    var b, f :| b in c.portals && f in b.publish && BindsOn(f, node) && pub == ResolveEntry(b, f);
    PublishTagEndsInDigit(b.id, f.port);
    assert !IsDigit(tag[|tag| - 1]);
  }

  /** Publishing changes nothing on a hub's built-in inbounds, whatever ids portals have. */
  lemma BuiltinInboundsUntouched(c: Config, node: string, p: Packet)
    requires FieldsValid(c) && p.inbound in BuiltinInbounds
    ensures FirstMatch(HubRules(c, NodePublishes(c.portals, node)), p) == FirstMatch(HubRules(c, []), p)
  {
    var published := NodePublishes(c.portals, node);
    forall pub | pub in published ensures pub.tag != p.inbound { BuiltinsAreNotPublished(c, node, p.inbound, pub); }
    OtherInboundsUntouched(c, published, p);
  }
}
