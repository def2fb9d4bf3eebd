/** Which outbounds a balancer picks: its selector is a prefix of their tags. */
module Selection {
  import opened Base
  import opened Names
  import opened Schema
  import opened Acceptance
  import opened Routing
  import opened Reachability
  import opened Closure

  /** The plain link of one of the region's primaries. */
  ghost predicate OwnLink(r: Region, l: Link) {
    exists m :: m in r.nodes && !m.backup && l == Link(m.id, r.id, m.id, false)
  }

  /** The warp link of one of the region's primaries. */
  ghost predicate OwnWarpLink(r: Region, l: Link) {
    exists m :: m in r.nodes && !m.backup && l == Link(WARP_PREFIX + m.id, r.id, m.id, true)
  }

  /** `m` is a primary of `r`. */
  ghost predicate Own(r: Region, q: Region, m: Node) { q == r && !m.backup }

  /** Among plain links `r`'s id starts the tags of its own primaries and of no other node. */
  ghost predicate PlainApart(c: Config, r: Region) {
    forall q, m :: Dialled(c, q, m) ==> (r.id <= RolePrefix(m) + m.id <==> Own(r, q, m))
  }

  /** The same among the nodes of regions with warp variants. */
  ghost predicate VariantApart(c: Config, r: Region) {
    forall q, m :: Dialled(c, q, m) && q.warp.Some? ==> (r.id <= RolePrefix(m) + m.id <==> Own(r, q, m))
  }

  ghost predicate NoVariantStarts(c: Config, selector: string) {
    forall q, m :: Dialled(c, q, m) && q.warp.Some? ==> !(selector <= WARP_PREFIX + RolePrefix(m) + m.id)
  }

  ghost predicate NoPlainStarts(c: Config, selector: string) {
    forall q, m :: Dialled(c, q, m) ==> !(selector <= RolePrefix(m) + m.id)
  }

  /** The selector starts no special destination. */
  predicate SparesSpecials(selector: string) { !(selector <= DIRECT) && !(selector <= BLOCKED) && !(selector <= WARP) }

  /** Of all links the selector `r.id` picks exactly those of the region's primaries. */
  ghost predicate PicksOwn(c: Config, r: Region) {
    forall l :: l in Links(c) ==> (r.id <= l.tag <==> OwnLink(r, l))
  }

  /** Of all links `warp-` and `r.id` picks exactly the warp variants of the region's primaries. */
  ghost predicate PicksOwnWarp(c: Config, r: Region) {
    forall l :: l in Links(c) ==> (WARP_PREFIX + r.id <= l.tag <==> OwnWarpLink(r, l))
  }

  lemma PlainOwn(c: Config, r: Region, q: Region, m: Node)
    requires NoDup(RegionIds(c.regions)) && r in Rendered(c.regions) && Dialled(c, q, m)
    ensures OwnLink(r, Link(RolePrefix(m) + m.id, q.id, m.id, false)) <==> Own(r, q, m)
  {
    assert "" + m.id == m.id;
    if q.id == r.id { SameRegion(c.regions, q, r); }
  }

  lemma WarpOwn(c: Config, r: Region, q: Region, m: Node)
    requires NoDup(RegionIds(c.regions)) && r in Rendered(c.regions) && Dialled(c, q, m)
    ensures OwnWarpLink(r, Link(WARP_PREFIX + RolePrefix(m) + m.id, q.id, m.id, true)) <==> Own(r, q, m)
  {
    assert WARP_PREFIX + "" + m.id == WARP_PREFIX + m.id;
    if q.id == r.id { SameRegion(c.regions, q, r); }
  }

  lemma PlainIn(c: Config, q: Region, m: Node)
    requires Dialled(c, q, m)
    ensures Link(RolePrefix(m) + m.id, q.id, m.id, false) in Links(c)
    ensures q.warp.Some? ==> Link(WARP_PREFIX + RolePrefix(m) + m.id, q.id, m.id, true) in Links(c)
  {
    LinkMember(c, Link(RolePrefix(m) + m.id, q.id, m.id, false));
    LinkMember(c, Link(WARP_PREFIX + RolePrefix(m) + m.id, q.id, m.id, true));
  }

  lemma ApartWhenPicked(c: Config, r: Region)
    requires NoDup(RegionIds(c.regions)) && r in Rendered(c.regions) && PicksOwn(c, r)
    ensures PlainApart(c, r) && NoVariantStarts(c, r.id)
  {
    forall q, m | Dialled(c, q, m)
      ensures r.id <= RolePrefix(m) + m.id <==> Own(r, q, m)
      ensures q.warp.Some? ==> !(r.id <= WARP_PREFIX + RolePrefix(m) + m.id)
    {
      PlainIn(c, q, m);
      PlainOwn(c, r, q, m);
    }
  }

  lemma PickedWhenApart(c: Config, r: Region)
    requires NoDup(RegionIds(c.regions)) && r in Rendered(c.regions) && PlainApart(c, r) && NoVariantStarts(c, r.id)
    ensures PicksOwn(c, r)
  {
    forall l | l in Links(c) ensures r.id <= l.tag <==> OwnLink(r, l) {
      var q, m := LinkTag(c, l);
      if !l.warp { PlainOwn(c, r, q, m); }
    }
  }

  lemma PrefixUnder(p: string, s: string, t: string)
    ensures p + s <= p + t <==> s <= t
  {
    if p + s <= p + t {
      assert s == (p + s)[|p|..] && t[..|s|] == (p + t)[|p|..|p| + |s|];
    }
    if s <= t {
      assert (p + t)[..|p| + |s|] == p + t[..|s|];
    }
  }

  lemma VariantUnder(r: Region, m: Node)
    ensures WARP_PREFIX + r.id <= WARP_PREFIX + RolePrefix(m) + m.id <==> r.id <= RolePrefix(m) + m.id
  {
    assert WARP_PREFIX + RolePrefix(m) + m.id == WARP_PREFIX + (RolePrefix(m) + m.id);
    PrefixUnder(WARP_PREFIX, r.id, RolePrefix(m) + m.id);
  }

  lemma VariantsApartWhenPicked(c: Config, r: Region)
    requires NoDup(RegionIds(c.regions)) && r in Rendered(c.regions) && PicksOwnWarp(c, r)
    ensures VariantApart(c, r) && NoPlainStarts(c, WARP_PREFIX + r.id)
  {
    forall q, m | Dialled(c, q, m)
      ensures q.warp.Some? ==> (r.id <= RolePrefix(m) + m.id <==> Own(r, q, m))
      ensures !(WARP_PREFIX + r.id <= RolePrefix(m) + m.id)
    {
      PlainIn(c, q, m);
      WarpOwn(c, r, q, m);
      VariantUnder(r, m);
    }
  }

  lemma PickedWhenVariantsApart(c: Config, r: Region)
    requires NoDup(RegionIds(c.regions)) && r in Rendered(c.regions)
    requires VariantApart(c, r) && NoPlainStarts(c, WARP_PREFIX + r.id)
    ensures PicksOwnWarp(c, r)
  {
    forall l | l in Links(c) ensures WARP_PREFIX + r.id <= l.tag <==> OwnWarpLink(r, l) {
      var q, m := LinkTag(c, l);
      if l.warp {
        WarpOwn(c, r, q, m);
        VariantUnder(r, m);
      }
    }
  }

  lemma WarpSparesSpecials(id: string)
    ensures SparesSpecials(WARP_PREFIX + id) && WARP_PREFIX + id != id
  {
    assert (WARP_PREFIX + id)[0] == 'w' && |WARP_PREFIX + id| == 5 + |id|;
  }

  /**
   * A balancer picks its region's primaries and nothing else exactly when the region's id starts the
   * tags of those nodes, of no other node, of no warp variant and of no special destination; the warp
   * balancer exactly when no other node of a region with warp, and no plain tag, comes under it.
   */
  lemma SelectionIff(c: Config, r: Region, b: BalancerDef)
    requires Accepted(c) && r in Rendered(c.regions) && b in RegionBalancers()(r)
    ensures if b.tag == LB_PREFIX + r.id && b.selector == r.id
            then SparesSpecials(b.selector) && PicksOwn(c, r)
                 <==> SparesSpecials(r.id) && PlainApart(c, r) && NoVariantStarts(c, r.id)
            else b.selector == WARP_PREFIX + r.id && SparesSpecials(b.selector)
                 && (PicksOwnWarp(c, r) <==> VariantApart(c, r) && NoPlainStarts(c, b.selector))
  {
    BalancerShape(r, b);
    WarpSparesSpecials(r.id);
    if b.selector == r.id {
      if PicksOwn(c, r) { ApartWhenPicked(c, r); }
      if PlainApart(c, r) && NoVariantStarts(c, r.id) { PickedWhenApart(c, r); }
    } else {
      if PicksOwnWarp(c, r) { VariantsApartWhenPicked(c, r); }
      if VariantApart(c, r) && NoPlainStarts(c, b.selector) { PickedWhenVariantsApart(c, r); }
    }
  }

  lemma PrimaryIn(c: Config, q: Region, m: Node)
    requires Dialled(c, q, m) && !m.backup
    ensures Link(m.id, q.id, m.id, false) in Links(c) && OwnLink(q, Link(m.id, q.id, m.id, false))
  {
    PlainIn(c, q, m);
    assert "" + m.id == m.id;
  }
}
