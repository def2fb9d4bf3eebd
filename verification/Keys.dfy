/** The persistent key store: who shares keys with whom, over every run of key generation. */
module Keys {
  import opened Base
  import opened Schema
  import opened Resolve
  import opened Inbounds

  type Store = map<string, NodeKeys>

  /** Freshly generated material; the encryption pair is unused when encryption is disabled. */
  datatype Generated = Generated(privateKey: string, publicKey: string, decryption: string, encryption: string)

  /** One call: the node, the force flag, and what the generators would produce. */
  datatype Call = Call(node: string, force: bool, gen: Generated)

  function MakeKeys(cfg: KeysConfig, g: Generated): NodeKeys {
    if cfg.enabled then NodeKeys(g.privateKey, g.publicKey, g.decryption, g.encryption)
    else NodeKeys(g.privateKey, g.publicKey, ENCRYPTION_DISABLED, ENCRYPTION_DISABLED)
  }

  // Nodes and their sharing class -----------------------------------------------------------

  function NodeIn(ns: seq<Node>, id: string): Option<Node> {
    if ns == [] then None else if ns[0].id == id then Some(ns[0]) else NodeIn(ns[1..], id)
  }

  function Find(rs: seq<Region>, id: string): Option<(Region, Node)> {
    if rs == [] then None
    else if NodeIn(rs[0].nodes, id).Some? then Some((rs[0], NodeIn(rs[0].nodes, id).value))
    else Find(rs[1..], id)
  }

  predicate Known(c: Config, id: string) { Find(c.regions, id).Some? }

  lemma {:induction false} NodeInFinds(ns: seq<Node>, id: string)
    ensures NodeIn(ns, id).Some? ==> NodeIn(ns, id).value in ns && NodeIn(ns, id).value.id == id
    ensures NodeIn(ns, id).None? ==> forall n :: n in ns ==> n.id != id
  {
    if ns != [] { NodeInFinds(ns[1..], id); }
  }

  lemma {:induction false} FindSound(rs: seq<Region>, id: string)
    requires Find(rs, id).Some?
    ensures var (r, n) := Find(rs, id).value; r in rs && n in r.nodes && n.id == id
  {
    NodeInFinds(rs[0].nodes, id);
    if NodeIn(rs[0].nodes, id).None? { FindSound(rs[1..], id); }
  }

  lemma {:induction false} FindComplete(rs: seq<Region>, r: Region, n: Node)
    requires r in rs && n in r.nodes
    ensures Find(rs, n.id).Some?
  {
    NodeInFinds(rs[0].nodes, n.id);
    if r != rs[0] { FindComplete(rs[1..], r, n); }
  }

  /** What validation guarantees of the ids (`RootValidator.ValidateReferences`). */
  ghost predicate UniqueIds(c: Config) {
    NoDup(NodeIds(NodesOf(c.regions))) && NoDup(RegionIds(c.regions))
  }

  predicate SharesWith(c: Config, r: Region, n: Node, m: Node) {
    r.HubRegion? && NodeKeysConfig(m, r, c) == NodeKeysConfig(n, r, c)
  }

  /** Ids that hold `n`'s keys: its own, and hub siblings resolving the same key settings. */
  function Siblings(c: Config, r: Region, n: Node, ms: seq<Node>): set<string> {
    {n.id} + set m | m in ms && SharesWith(c, r, n, m) :: m.id
  }

  /** What nodes must agree on to hold the same keys. */
  datatype Class = Lone(id: string) | HubClass(region: string, cfg: KeysConfig)

  function ClassOf(c: Config): string -> Class {
    (id: string) =>
      match Find(c.regions, id)
      case None => Lone(id)
      case Some((r, n)) => if r.HubRegion? then HubClass(r.id, NodeKeysConfig(n, r, c)) else Lone(id)
  }

  lemma FindUnique(c: Config, r: Region, n: Node)
    requires UniqueIds(c) && r in c.regions && n in r.nodes
    ensures Find(c.regions, n.id) == Some((r, n))
  {
    FindComplete(c.regions, r, n);
    FindSound(c.regions, n.id);
    var (q, m) := Find(c.regions, n.id).value;
    SameOwner(c.regions, r, n, q, m);
  }

  /** One class: the same node, or hub siblings of one region with equal key settings. */
  lemma ClassMeaning(c: Config, r: Region, n: Node, q: Region, m: Node)
    requires UniqueIds(c) && r in c.regions && n in r.nodes && q in c.regions && m in q.nodes
    ensures ClassOf(c)(n.id) == ClassOf(c)(m.id) <==> n == m || (q == r && SharesWith(c, r, n, m))
  {
    FindUnique(c, r, n);
    FindUnique(c, q, m);
    if r.id == q.id { SameRegion(c.regions, r, q); }
    if n.id == m.id { SameOwner(c.regions, r, n, q, m); }
  }

  lemma SiblingsInClass(c: Config, r: Region, n: Node, id: string)
    requires UniqueIds(c) && r in c.regions && n in r.nodes && r.HubRegion? && id in Siblings(c, r, n, r.nodes)
    ensures Known(c, id) && ClassOf(c)(id) == ClassOf(c)(n.id)
  {
    FindComplete(c.regions, r, n);
    if id != n.id {
      var k :| k in r.nodes && SharesWith(c, r, n, k) && k.id == id;
      ClassMeaning(c, r, n, r, k);
      FindComplete(c.regions, r, k);
    }
  }

  lemma ClassInSiblings(c: Config, r: Region, n: Node, id: string)
    requires UniqueIds(c) && r in c.regions && n in r.nodes && r.HubRegion?
    requires Known(c, id) && ClassOf(c)(id) == ClassOf(c)(n.id)
    ensures id in Siblings(c, r, n, r.nodes)
  {
    FindSound(c.regions, id);
    var (q, m) := Find(c.regions, id).value;
    ClassMeaning(c, r, n, q, m);
  }

  // One call --------------------------------------------------------------------------------

  /** First sibling in file order that already has keys and resolves the same settings. */
  function Donor(c: Config, r: Region, n: Node, s: Store, ms: seq<Node>): Option<string> {
    if ms == [] then None
    else if ms[0].id != n.id && ms[0].id in s && NodeKeysConfig(ms[0], r, c) == NodeKeysConfig(n, r, c) then Some(ms[0].id)
    else Donor(c, r, n, s, ms[1..])
  }

  lemma {:induction false} DonorMeaning(c: Config, r: Region, n: Node, s: Store, ms: seq<Node>)
    ensures var d := Donor(c, r, n, s, ms);
            && (d.Some? ==> d.value in s && exists m :: m in ms && m.id == d.value && NodeKeysConfig(m, r, c) == NodeKeysConfig(n, r, c))
            && (d.None? ==> forall m :: m in ms && m.id != n.id && NodeKeysConfig(m, r, c) == NodeKeysConfig(n, r, c) ==> m.id !in s)
  {
    if ms != [] { DonorMeaning(c, r, n, s, ms[1..]); }
  }

  function Assign(s: Store, ids: set<string>, k: NodeKeys): Store { s + map id | id in ids :: k }

  function Next(c: Config, s: Store, call: Call): Store {
    if call.node in s && !call.force then s
    else
      match Find(c.regions, call.node)
      case None => s
      case Some((r, n)) =>
        var donor := Donor(c, r, n, s, r.nodes);
        if r.HubRegion? && !call.force && donor.Some? && donor.value in s then s[call.node := s[donor.value]]
        else if r.HubRegion? && call.force then Assign(s, Siblings(c, r, n, r.nodes), MakeKeys(NodeKeysConfig(n, r, c), call.gen))
        else s[call.node := MakeKeys(NodeKeysConfig(n, r, c), call.gen)]
  }

  // What a call leaves in the store ---------------------------------------------------------

  /** Another node of the region has keys and resolves the same settings. */
  ghost predicate Lends(c: Config, r: Region, n: Node, s: Store, j: nat) {
    j < |r.nodes| && r.nodes[j].id != n.id && r.nodes[j].id in s && NodeKeysConfig(r.nodes[j], r, c) == NodeKeysConfig(n, r, c)
  }

  ghost predicate LendsFirst(c: Config, r: Region, n: Node, s: Store, j: nat) {
    Lends(c, r, n, s, j) && forall i :: 0 <= i < j ==> !Lends(c, r, n, s, i)
  }

  /** Freshly generated keys, with an encryption pair when the node's settings enable it. */
  ghost predicate IsFresh(cfg: KeysConfig, g: Generated, k: NodeKeys) {
    && k.privateKey == g.privateKey && k.publicKey == g.publicKey
    && (if cfg.enabled then k.decryption == g.decryption && k.encryption == g.encryption
        else k.decryption == "none" && k.encryption == "none")
  }

  /**
   * The store `t` after a call that reports work done on store `s`: an unforced call for a hub node
   * takes the keys of the first sibling that lends, any other call stores fresh ones; a forced call
   * for a hub node gives them to its siblings too; nobody else's entry changes.
   */
  ghost predicate Stores(c: Config, s: Store, call: Call, r: Region, n: Node, t: Store) {
    && r in c.regions && n in r.nodes && n.id == call.node && n.id in t
    && (if r.HubRegion? && !call.force && exists j: nat :: Lends(c, r, n, s, j)
        then exists j: nat :: LendsFirst(c, r, n, s, j) && t[n.id] == s[r.nodes[j].id]
        else IsFresh(NodeKeysConfig(n, r, c), call.gen, t[n.id]))
    && forall id :: id != n.id ==>
                      if Follows(c, r, n, call, id) then id in t && t[id] == t[n.id]
                      else (id in t <==> id in s) && (id in s ==> t[id] == s[id])
  }

  ghost predicate Follows(c: Config, r: Region, n: Node, call: Call, id: string) {
    call.force && r.HubRegion? && exists m :: m in r.nodes && m.id == id && NodeKeysConfig(m, r, c) == NodeKeysConfig(n, r, c)
  }

  lemma {:induction false} DonorFirst(c: Config, r: Region, n: Node, s: Store, i: nat)
    requires i <= |r.nodes| && forall j :: 0 <= j < i ==> !Lends(c, r, n, s, j)
    ensures Donor(c, r, n, s, r.nodes[i..]).None? ==> forall j: nat :: !Lends(c, r, n, s, j)
    ensures Donor(c, r, n, s, r.nodes[i..]).Some? ==>
              exists j: nat :: LendsFirst(c, r, n, s, j) && r.nodes[j].id == Donor(c, r, n, s, r.nodes[i..]).value
    decreases |r.nodes| - i
  {
    if i < |r.nodes| {
      assert r.nodes[i..][0] == r.nodes[i] && r.nodes[i..][1..] == r.nodes[i + 1..];
      if Lends(c, r, n, s, i) {
        assert LendsFirst(c, r, n, s, i);
      } else {
        DonorFirst(c, r, n, s, i + 1);
      }
    }
  }

  lemma NextStores(c: Config, s: Store, call: Call, r: Region, n: Node)
    requires Find(c.regions, call.node) == Some((r, n)) && (call.force || call.node !in s)
    ensures Stores(c, s, call, r, n, Next(c, s, call))
  {
    FindSound(c.regions, call.node);
    assert r.nodes[0..] == r.nodes;
    DonorFirst(c, r, n, s, 0);
  }

  lemma CallStores(c: Config, s: Store, call: Call)
    requires Find(c.regions, call.node).Some? && (call.force || call.node !in s)
    ensures exists r, n :: Stores(c, s, call, r, n, Next(c, s, call))
  {
    var (r, n) := Find(c.regions, call.node).value;
    NextStores(c, s, call, r, n);
  }

  /** The key directory; every save replaces one node's file. */
  class KeyDirectory {
    var entries: Store

    constructor ()
      ensures entries == map[]
    {
      entries := map[];
    }

    /** Returns whether keys were generated or copied; unknown nodes are an error. */
    method GenKeys(c: Config, call: Call) returns (out: Result<bool, string>)
      modifies this
      ensures entries == Next(c, old(entries), call)
      ensures out == Ok(true) ==> exists r, n :: Stores(c, old(entries), call, r, n, entries)
      ensures out != Ok(true) ==> entries == old(entries)
      ensures out == if call.node in old(entries) && !call.force then Ok(false)
                     else if Find(c.regions, call.node).None? then Err(call.node) else Ok(true)
    {
      if call.node in entries && !call.force { return Ok(false); }
      var found := Find(c.regions, call.node);
      if found.None? { return Err(call.node); }
      var (r, n) := found.value;
      FindSound(c.regions, call.node);
      CallStores(c, entries, call);
      var cfg := NodeKeysConfig(n, r, c);
      if r.HubRegion? && !call.force {
        for i := 0 to |r.nodes|
          invariant entries == old(entries)
          invariant Donor(c, r, n, entries, r.nodes) == Donor(c, r, n, entries, r.nodes[i..])
        {
          var sibling := r.nodes[i];
          if sibling.id != call.node && sibling.id in entries {
            if NodeKeysConfig(sibling, r, c) == cfg {
              entries := entries[call.node := entries[sibling.id]];
              return Ok(true);
            }
          }
        }
      }
      var keys := MakeKeys(cfg, call.gen);
      entries := entries[call.node := keys];
      if r.HubRegion? && call.force {
        SaveSiblings(c, r, n, keys);
      }
      return Ok(true);
    }

    method SaveSiblings(c: Config, r: Region, n: Node, keys: NodeKeys)
      requires r.HubRegion? && n.id in entries && entries[n.id] == keys
      modifies this
      ensures entries == Assign(old(entries), Siblings(c, r, n, r.nodes), keys)
    {
      for i := 0 to |r.nodes|
        invariant entries == Assign(old(entries), Siblings(c, r, n, r.nodes[..i]), keys)
      {
        var sibling := r.nodes[i];
        SaveStep(c, r, n, old(entries), keys, i);
        if sibling.id != n.id && NodeKeysConfig(sibling, r, c) == NodeKeysConfig(n, r, c) {
          entries := entries[sibling.id := keys];
        }
      }
      assert r.nodes[..|r.nodes|] == r.nodes;
    }
  }

  lemma SiblingsSnoc(c: Config, r: Region, n: Node, i: nat)
    requires i < |r.nodes|
    ensures Siblings(c, r, n, r.nodes[..i + 1]) ==
            Siblings(c, r, n, r.nodes[..i]) + (if SharesWith(c, r, n, r.nodes[i]) then {r.nodes[i].id} else {})
  {
    assert r.nodes[..i + 1] == r.nodes[..i] + [r.nodes[i]];
  }

  /** The loop writes the members of the class, and only them. */
  lemma SaveStep(c: Config, r: Region, n: Node, s: Store, k: NodeKeys, i: nat)
    requires r.HubRegion? && i < |r.nodes|
    ensures var before, m := Assign(s, Siblings(c, r, n, r.nodes[..i]), k), r.nodes[i];
            Assign(s, Siblings(c, r, n, r.nodes[..i + 1]), k) ==
            if m.id != n.id && NodeKeysConfig(m, r, c) == NodeKeysConfig(n, r, c) then before[m.id := k] else before
  {
    SiblingsSnoc(c, r, n, i);
    var ids, m := Siblings(c, r, n, r.nodes[..i]), r.nodes[i];
    if m.id in ids {
      AssignAgain(s, ids, m.id, k);
    } else {
      AssignOne(s, ids, m.id, k);
    }
  }

  lemma AssignOne(s: Store, ids: set<string>, id: string, k: NodeKeys)
    ensures Assign(s, ids, k)[id := k] == Assign(s, ids + {id}, k)
  {
  }

  lemma AssignAgain(s: Store, ids: set<string>, id: string, k: NodeKeys)
    requires id in ids
    ensures Assign(s, ids, k)[id := k] == Assign(s, ids, k)
    ensures ids + {id} == ids
  {
  }

  // The sharing invariant -------------------------------------------------------------------

  /** Stored nodes hold equal keys exactly when they are of one class; private keys never cross classes. */
  ghost predicate Sharing(cls: string -> Class, s: Store) {
    && (forall a, b :: a in s && b in s && cls(a) == cls(b) ==> s[a] == s[b])
    && (forall a, b :: a in s && b in s && s[a].privateKey == s[b].privateKey ==> cls(a) == cls(b))
  }

  ghost predicate Fresh(s: Store, g: Generated) { forall id :: id in s ==> s[id].privateKey != g.privateKey }

  lemma CopyKeepsSharing(cls: string -> Class, s: Store, id: string, donor: string)
    requires Sharing(cls, s) && donor in s && cls(donor) == cls(id)
    ensures Sharing(cls, s[id := s[donor]])
  {
  }

  /** Giving every stored member of a class fresh keys keeps the invariant. */
  lemma AssignKeepsSharing(cls: string -> Class, s: Store, ids: set<string>, x: Class, k: NodeKeys)
    requires Sharing(cls, s)
    requires forall a :: a in ids ==> cls(a) == x
    requires forall a :: a in s && cls(a) == x ==> a in ids
    requires forall a :: a in s ==> s[a].privateKey != k.privateKey
    ensures Sharing(cls, Assign(s, ids, k))
  {
  }

  lemma AloneKeepsSharing(cls: string -> Class, s: Store, id: string, k: NodeKeys)
    requires Sharing(cls, s) && forall a :: a in s && cls(a) == cls(id) ==> a == id
    requires forall a :: a in s ==> s[a].privateKey != k.privateKey
    ensures Sharing(cls, s[id := k])
  {
    AssignKeepsSharing(cls, s, {id}, cls(id), k);
    assert Assign(s, {id}, k) == s[id := k];
  }

  ghost predicate AllKnown(c: Config, s: Store) { forall id :: id in s ==> Known(c, id) }

  lemma CopyCall(c: Config, s: Store, r: Region, n: Node, donor: string)
    requires UniqueIds(c) && r in c.regions && n in r.nodes && r.HubRegion? && Sharing(ClassOf(c), s)
    requires Donor(c, r, n, s, r.nodes) == Some(donor)
    ensures donor in s && Sharing(ClassOf(c), s[n.id := s[donor]])
  {
    DonorMeaning(c, r, n, s, r.nodes);
    var m :| m in r.nodes && m.id == donor && NodeKeysConfig(m, r, c) == NodeKeysConfig(n, r, c);
    ClassMeaning(c, r, n, r, m);
    CopyKeepsSharing(ClassOf(c), s, n.id, donor);
  }

  lemma ForcedCall(c: Config, s: Store, r: Region, n: Node, k: NodeKeys)
    requires UniqueIds(c) && r in c.regions && n in r.nodes && r.HubRegion?
    requires Sharing(ClassOf(c), s) && AllKnown(c, s) && forall a :: a in s ==> s[a].privateKey != k.privateKey
    ensures Sharing(ClassOf(c), Assign(s, Siblings(c, r, n, r.nodes), k)) && AllKnown(c, Assign(s, Siblings(c, r, n, r.nodes), k))
  {
    forall a | a in Siblings(c, r, n, r.nodes) ensures Known(c, a) && ClassOf(c)(a) == ClassOf(c)(n.id) {
      SiblingsInClass(c, r, n, a);
    }
    forall a | a in s && ClassOf(c)(a) == ClassOf(c)(n.id) ensures a in Siblings(c, r, n, r.nodes) {
      ClassInSiblings(c, r, n, a);
    }
    AssignKeepsSharing(ClassOf(c), s, Siblings(c, r, n, r.nodes), ClassOf(c)(n.id), k);
  }

  lemma OnlyStored(c: Config, s: Store, r: Region, n: Node, id: string)
    requires UniqueIds(c) && r in c.regions && n in r.nodes && (r.HubRegion? ==> Donor(c, r, n, s, r.nodes).None?)
    requires id in s && Known(c, id) && ClassOf(c)(id) == ClassOf(c)(n.id)
    ensures id == n.id
  {
    DonorMeaning(c, r, n, s, r.nodes);
    FindSound(c.regions, id);
    var (q, m) := Find(c.regions, id).value;
    ClassMeaning(c, r, n, q, m);
  }

  /** A node alone in its class among the stored ones. */
  lemma LoneCall(c: Config, s: Store, r: Region, n: Node, k: NodeKeys)
    requires UniqueIds(c) && r in c.regions && n in r.nodes && (r.HubRegion? ==> Donor(c, r, n, s, r.nodes).None?)
    requires Sharing(ClassOf(c), s) && AllKnown(c, s) && forall a :: a in s ==> s[a].privateKey != k.privateKey
    ensures Sharing(ClassOf(c), s[n.id := k])
  {
    forall a | a in s && ClassOf(c)(a) == ClassOf(c)(n.id) ensures a == n.id {
      OnlyStored(c, s, r, n, a);
    }
    AloneKeepsSharing(ClassOf(c), s, n.id, k);
  }

  /** One call keeps the sharing invariant, forced or not. */
  lemma CallKeepsSharing(c: Config, s: Store, call: Call)
    requires UniqueIds(c) && Sharing(ClassOf(c), s) && AllKnown(c, s) && Fresh(s, call.gen)
    ensures Sharing(ClassOf(c), Next(c, s, call)) && AllKnown(c, Next(c, s, call))
  {
    if !(call.node in s && !call.force) && Find(c.regions, call.node).Some? {
      FindSound(c.regions, call.node);
      var (r, n) := Find(c.regions, call.node).value;
      var k := MakeKeys(NodeKeysConfig(n, r, c), call.gen);
      var donor := Donor(c, r, n, s, r.nodes);
      if r.HubRegion? && !call.force && donor.Some? {
        CopyCall(c, s, r, n, donor.value);
      } else if r.HubRegion? && call.force {
        ForcedCall(c, s, r, n, k);
      } else {
        LoneCall(c, s, r, n, k);
      }
    }
  }

  // Runs ------------------------------------------------------------------------------------

  ghost function Run(c: Config, s: Store, calls: seq<Call>): Store
    decreases |calls|
  {
    if calls == [] then s else Run(c, Next(c, s, calls[0]), calls[1..])
  }

  /** Each generated private key differs from those stored when it is generated. */
  ghost predicate FreshRun(c: Config, s: Store, calls: seq<Call>)
    decreases |calls|
  {
    calls != [] ==> Fresh(s, calls[0].gen) && FreshRun(c, Next(c, s, calls[0]), calls[1..])
  }

  lemma {:induction false} RunKeepsSharing(c: Config, s: Store, calls: seq<Call>)
    requires UniqueIds(c) && Sharing(ClassOf(c), s) && AllKnown(c, s) && FreshRun(c, s, calls)
    ensures Sharing(ClassOf(c), Run(c, s, calls)) && AllKnown(c, Run(c, s, calls))
    decreases |calls|
  {
    if calls != [] {
      CallKeepsSharing(c, s, calls[0]);
      RunKeepsSharing(c, Next(c, s, calls[0]), calls[1..]);
    }
  }

  /**
   * After any run from an empty store, two stored nodes hold equal keys exactly when they are the
   * same node, or hub siblings of one region with equal resolved key settings.
   */
  lemma KeysSharedWithinClasses(c: Config, calls: seq<Call>, r: Region, n: Node, q: Region, m: Node)
    requires UniqueIds(c) && FreshRun(c, map[], calls)
    requires r in c.regions && n in r.nodes && q in c.regions && m in q.nodes
    requires n.id in Run(c, map[], calls) && m.id in Run(c, map[], calls)
    ensures Run(c, map[], calls)[n.id] == Run(c, map[], calls)[m.id] <==>
            n == m || (q == r && r.HubRegion? && NodeKeysConfig(m, r, c) == NodeKeysConfig(n, r, c))
  {
    RunKeepsSharing(c, map[], calls);
    ClassMeaning(c, r, n, q, m);
  }

  /** An unforced call alters no existing entry and adds at most the named node. */
  lemma UnforcedKeepsEntries(c: Config, s: Store, call: Call, id: string)
    requires !call.force
    ensures id in s ==> id in Next(c, s, call) && Next(c, s, call)[id] == s[id]
    ensures id in Next(c, s, call) ==> id in s || id == call.node
  {
  }

  /** A forced call rewrites exactly the node's class, giving keys to siblings that had none. */
  lemma ForcedRewritesClass(c: Config, s: Store, call: Call, id: string)
    requires UniqueIds(c) && call.force && Known(c, call.node)
    ensures var t := Next(c, s, call);
            if Known(c, id) && ClassOf(c)(id) == ClassOf(c)(call.node)
            then id in t && t[id].privateKey == call.gen.privateKey
            else (id in t <==> id in s) && (id in s ==> t[id] == s[id])
  {
    FindSound(c.regions, call.node);
    var (r, n) := Find(c.regions, call.node).value;
    if r.HubRegion? {
      if id in Siblings(c, r, n, r.nodes) { SiblingsInClass(c, r, n, id); }
      if Known(c, id) && ClassOf(c)(id) == ClassOf(c)(n.id) { ClassInSiblings(c, r, n, id); }
    } else if Known(c, id) {
      FindSound(c.regions, id);
      var (q, m) := Find(c.regions, id).value;
      ClassMeaning(c, r, n, q, m);
    }
  }
}
