/** WireGuard peers of a hub: address allocation, and the client configs that must match it. */
module WireguardPeers {
  import opened Base
  import opened Names
  import opened Schema
  import opened Identity

  // Subnets ---------------------------------------------------------------------------------

  function Pow2(n: nat): (p: nat)
    ensures p >= 1
  {
    if n == 0 then 1 else 2 * Pow2(n - 1)
  }

  /** `addr` with its host bits cleared: the greatest multiple of `size` up to it. */
  function Mask(addr: nat, size: nat): (base: nat)
    requires size >= 1
    ensures base <= addr < base + size && IsMultiple(base, size)
  {
    if addr < size then 0 else size + Mask(addr - size, size)
  }

  predicate IsMultiple(n: nat, size: nat)
    requires size >= 1
  {
    n == 0 || (n >= size && IsMultiple(n - size, size))
  }

  /** A parsed subnet; `addr` may have host bits, which masking clears. */
  datatype Subnet = Subnet(v6: bool, addr: nat, prefix: nat) {
    function Bits(): nat { if v6 then 128 else 32 }
    predicate Valid() { prefix <= Bits() }
    function Size(): nat
      requires Valid()
    {
      Pow2(Bits() - prefix)
    }
    function Base(): nat
      requires Valid()
    {
      Mask(addr, Size())
    }
    /** First usable host and one past the last, as the address library enumerates them. */
    function HostsFrom(): nat
      requires Valid()
    {
      if prefix + 1 >= Bits() then Base() else Base() + 1
    }
    function HostsTo(): nat
      requires Valid()
    {
      if prefix + 1 >= Bits() || v6 then Base() + Size() else Base() + Size() - 1
    }
    /** Peers the subnet holds: its hosts less the one kept for the server. */
    function Capacity(): nat
      requires Valid()
    {
      if HostsTo() <= HostsFrom() + 1 then 0 else HostsTo() - HostsFrom() - 1
    }
  }

  /** Iterator over a subnet's hosts, advanced by every allocation. */
  class HostIterator {
    var next: nat
    const end: nat

    constructor (s: Subnet)
      requires s.Valid()
      ensures next == s.HostsFrom() && end == s.HostsTo()
    {
      next, end := s.HostsFrom(), s.HostsTo();
    }

    method Next() returns (address: Option<nat>)
      modifies this
      ensures old(next) < end ==> address == Some(old(next)) && next == old(next) + 1
      ensures old(next) >= end ==> address == None && next == old(next)
    {
      if next >= end { return None; }
      address := Some(next);
      next := next + 1;
    }
  }

  // Allocation ------------------------------------------------------------------------------

  datatype Peer = Peer(id: Id, email: string, uuid: Uuid, address: nat)

  /** Identities of a user that get a peer. */
  function Wanted(): User -> seq<Id> { AccessIds(Access.Wireguard, true) }

  function Requests(users: seq<User>): seq<Id> { FlatMap(Wanted(), users) }

  function PeerAt(ns: Namespace, s: Subnet, ids: seq<Id>, i: nat): Peer
    requires s.Valid() && i < |ids|
  {
    Peer(ids[i], ids[i].Email(ns), ids[i].Uuid(ns), s.HostsFrom() + 1 + i)
  }

  /** Peers for `ids` in order, one address after another. */
  function Allocated(ns: Namespace, s: Subnet, ids: seq<Id>): (peers: seq<Peer>)
    requires s.Valid()
    ensures |peers| == |ids|
    ensures forall i :: 0 <= i < |ids| ==> peers[i] == PeerAt(ns, s, ids, i)
  {
    seq(|ids|, i requires 0 <= i < |ids| => PeerAt(ns, s, ids, i))
  }

  /** The iterator stands behind the server's address and `n` peers. */
  predicate Aligned(next: nat, end: nat, s: Subnet, n: nat)
    requires s.Valid()
  {
    && end == s.HostsTo() && n <= s.Capacity()
    && (if s.Capacity() > 0 then next == s.HostsFrom() + 1 + n else next >= end)
  }

  /** Allocates the next host to `id`; fails when none is left. */
  method Allocate(hosts: HostIterator, ns: Namespace, s: Subnet, ghost done: seq<Id>, peers: seq<Peer>, id: Id)
    returns (out: seq<Peer>, ok: bool)
    requires s.Valid() && Aligned(hosts.next, hosts.end, s, |done|) && peers == Allocated(ns, s, done)
    modifies hosts
    ensures ok <==> |done| < s.Capacity()
    ensures out == Allocated(ns, s, if ok then done + [id] else done)
    ensures ok ==> Aligned(hosts.next, hosts.end, s, |done| + 1)
  {
    out := peers;
    var address := hosts.Next();
    if address.None? { return out, false; }
    ok := true;
    out := out + [Peer(id, id.Email(ns), id.Uuid(ns), address.value)];
  }

  /** Allocates to `ids` in order, stopping where the subnet runs out. */
  method AllocateAll(hosts: HostIterator, ns: Namespace, s: Subnet, ghost done: seq<Id>, peers: seq<Peer>, ids: seq<Id>)
    returns (out: seq<Peer>, ok: bool)
    requires s.Valid() && Aligned(hosts.next, hosts.end, s, |done|) && peers == Allocated(ns, s, done)
    modifies hosts
    ensures ok <==> |done| + |ids| <= s.Capacity()
    ensures ok ==> out == Allocated(ns, s, done + ids) && Aligned(hosts.next, hosts.end, s, |done| + |ids|)
    ensures !ok ==> out == Allocated(ns, s, done + ids[..s.Capacity() - |done|])
  {
    out, ok := peers, true;
    assert done + ids[..0] == done;
    for j := 0 to |ids|
      invariant ok && out == Allocated(ns, s, done + ids[..j])
      invariant Aligned(hosts.next, hosts.end, s, |done| + j)
    {
      assert done + ids[..j + 1] == done + ids[..j] + [ids[j]];
      out, ok := Allocate(hosts, ns, s, done + ids[..j], out, ids[j]);
      if !ok { return; }
    }
    assert ids[..|ids|] == ids;
  }

  /** Peers in order until the subnet runs out; `ok` when every request got one. */
  method AllocatePeers(users: seq<User>, ns: Namespace, s: Subnet) returns (peers: seq<Peer>, ok: bool)
    requires s.Valid()
    ensures ok <==> |Requests(users)| <= s.Capacity()
    ensures ok ==> peers == Allocated(ns, s, Requests(users))
    ensures !ok ==> peers == Allocated(ns, s, Requests(users)[..s.Capacity()])
  {
    var hosts := new HostIterator(s);
    var reserved := hosts.Next();
    peers, ok := [], true;
    for i := 0 to |users|
      invariant ok && Aligned(hosts.next, hosts.end, s, |Requests(users[..i])|)
      invariant peers == Allocated(ns, s, Requests(users[..i]))
    {
      FlatMapTake(Wanted(), users, i);
      peers, ok := AllocateAll(hosts, ns, s, Requests(users[..i]), peers, Wanted()(users[i]));
      if !ok {
        FlatMapPrefix(Wanted(), users, i, s.Capacity() - |Requests(users[..i])|);
        return;
      }
    }
    assert users[..|users|] == users;
  }

  // What the addresses are ------------------------------------------------------------------

  lemma Pow2Grows(n: nat)
    requires n >= 2
    ensures Pow2(n) >= 4
    decreases n
  {
    if n > 2 { Pow2Grows(n - 1); }
  }

  /**
   * Peers get pairwise distinct hosts inside the masked subnet: never the server's address, nor,
   * on subnets of four addresses or more, the network address or the IPv4 broadcast address.
   */
  lemma AddressesSound(ns: Namespace, s: Subnet, ids: seq<Id>, i: nat, j: nat)
    requires s.Valid() && |ids| <= s.Capacity() && i < |ids| && j < |ids|
    ensures var a := Allocated(ns, s, ids)[i].address;
            && s.Base() <= a < s.Base() + s.Size()
            && a != s.HostsFrom()
            && (s.prefix + 2 <= s.Bits() ==> a != s.Base())
            && (s.prefix + 2 <= s.Bits() && !s.v6 ==> a != s.Base() + s.Size() - 1)
            && (i != j ==> a != Allocated(ns, s, ids)[j].address)
  {
  }

  /** Capacity in closed form, including the two smallest subnets of each family. */
  lemma CapacityClosedForm(s: Subnet)
    requires s.Valid()
    ensures s.Capacity() ==
            if s.prefix == s.Bits() then 0
            else if s.prefix + 1 == s.Bits() then 1
            else if s.v6 then Pow2(128 - s.prefix) - 2
            else Pow2(32 - s.prefix) - 3
  {
    assert Pow2(0) == 1 && Pow2(1) == 2;
    if s.prefix + 2 <= s.Bits() { Pow2Grows(s.Bits() - s.prefix); }
  }

  /** Later users take later addresses: appending users moves no existing peer. */
  lemma AppendingUsersMovesNobody(users: seq<User>, more: seq<User>, ns: Namespace, s: Subnet)
    requires s.Valid()
    ensures Allocated(ns, s, Requests(users)) <= Allocated(ns, s, Requests(users + more))
  {
    FlatMapConcat(Wanted(), users, more);
  }

  /** Nor does appending guests to the last user. Emails and UUIDs do not depend on the guest list. */
  lemma AppendingGuestsMovesNobody(front: seq<User>, last: User, more: seq<string>, ns: Namespace, s: Subnet, i: nat)
    requires s.Valid()
    requires i < |Requests(front + [last])|
    ensures var grown := Requests(front + [last.(guests := last.guests + more)]);
            && i < |grown|
            && var a, b := Allocated(ns, s, Requests(front + [last]))[i], Allocated(ns, s, grown)[i];
               a.email == b.email && a.uuid == b.uuid && a.address == b.address
  {
    var v := last.(guests := last.guests + more);
    assert (front + [last])[..|front|] == front && (front + [v])[..|front|] == front;
    WantedLength(last);
    WantedLength(v);
    assert Requests(front + [last]) == Requests(front) + Wanted()(last);
    assert Requests(front + [v]) == Requests(front) + Wanted()(v);
    if i >= |Requests(front)| {
      var k := i - |Requests(front)|;
      assert Requests(front + [last])[i] == Wanted()(last)[k] && Requests(front + [v])[i] == Wanted()(v)[k];
      SameDerivation(last, v, ns, k);
    }
  }

  function OwnIds(u: User): nat { if Access.Server in u.access then 2 else 1 }

  lemma WantedAt(u: User, k: nat)
    requires Access.Wireguard in u.access && k < OwnIds(u) + |u.guests|
    ensures |Wanted()(u)| == OwnIds(u) + |u.guests|
    ensures Wanted()(u)[k] ==
            if k == 0 then OfUser(u) else if k < OwnIds(u) then OfServer(u) else OfGuest(u.guests[k - OwnIds(u)], u)
  {
    var own := [OfUser(u)] + (if Access.Server in u.access then [OfServer(u)] else []);
    assert Wanted()(u) == own + GuestIds(u);
  }

  lemma WantedLength(u: User)
    ensures |Wanted()(u)| == if Access.Wireguard in u.access then OwnIds(u) + |u.guests| else 0
  {
    if Access.Wireguard in u.access { WantedAt(u, 0); }
  }

  lemma SameDerivation(u: User, v: User, ns: Namespace, k: nat)
    requires v.username == u.username && v.uuid == u.uuid && v.access == u.access && u.guests <= v.guests
    requires Access.Wireguard in u.access && k < OwnIds(u) + |u.guests|
    ensures k < |Wanted()(u)| && k < |Wanted()(v)|
    ensures Wanted()(u)[k].Email(ns) == Wanted()(v)[k].Email(ns) && Wanted()(u)[k].Uuid(ns) == Wanted()(v)[k].Uuid(ns)
  {
    WantedAt(u, k);
    WantedAt(v, k);
    SameIds(ns, u, v, Wanted()(u)[k], Wanted()(v)[k]);
  }

  /** Emails and UUIDs read the username and the override, not the guest list. */
  lemma SameIds(ns: Namespace, u: User, v: User, a: Id, b: Id)
    requires v.username == u.username && v.uuid == u.uuid
    requires || (a == OfUser(u) && b == OfUser(v))
             || (a == OfServer(u) && b == OfServer(v))
             || (a.OfGuest? && a.u == u && b == OfGuest(a.guest, v))
    ensures a.Email(ns) == b.Email(ns) && a.Uuid(ns) == b.Uuid(ns)
  {
    assert ns.UserUuid(u) == ns.UserUuid(v);
  }

  // Client configs --------------------------------------------------------------------------

  /** Peers by email; a repeated email keeps its last peer. */
  function ByEmail(peers: seq<Peer>): map<string, Peer> {
    if peers == [] then map[] else ByEmail(peers[..|peers| - 1])[peers[|peers| - 1].email := peers[|peers| - 1]]
  }

  lemma {:induction false} ByEmailFinds(peers: seq<Peer>, i: nat)
    requires i < |peers|
    requires forall j, k :: 0 <= j < k < |peers| ==> peers[j].email != peers[k].email
    ensures peers[i].email in ByEmail(peers) && ByEmail(peers)[peers[i].email] == peers[i]
  {
    if i < |peers| - 1 { ByEmailFinds(peers[..|peers| - 1], i); }
  }

  lemma {:induction false} ByEmailOnly(peers: seq<Peer>, email: string)
    requires email in ByEmail(peers)
    ensures ByEmail(peers)[email] in peers && ByEmail(peers)[email].email == email
  {
    if email != peers[|peers| - 1].email { ByEmailOnly(peers[..|peers| - 1], email); }
  }

  method IndexByEmail(peers: seq<Peer>) returns (m: map<string, Peer>)
    ensures m == ByEmail(peers)
  {
    m := map[];
    for i := 0 to |peers|
      invariant m == ByEmail(peers[..i])
    {
      assert peers[..i + 1][..i] == peers[..i];
      m := m[peers[i].email := peers[i]];
    }
    assert peers[..|peers|] == peers;
  }

  /** The email-keyed lookup of one hub node's client config. */
  method LookUp(users: seq<User>, ns: Namespace, s: Subnet, target: string) returns (peer: Option<Peer>, ok: bool)
    requires s.Valid()
    ensures ok <==> |Requests(users)| <= s.Capacity()
    ensures ok ==> var m := ByEmail(Allocated(ns, s, Requests(users)));
                   peer == if target in m then Some(m[target]) else None
  {
    var peers;
    peers, ok := AllocatePeers(users, ns, s);
    var m := IndexByEmail(peers);
    peer := if target in m then Some(m[target]) else None;
  }

  // Emails of requests are distinct because emails of all identities are.

  lemma WantedWithin(u: User)
    ensures forall id :: id in Wanted()(u) ==> id in UserIds()(u)
  {
    forall id | id in Wanted()(u) ensures id in UserIds()(u) {
      UserIdMember(u, id);
      GuestIdMember(u, id);
    }
  }

  lemma EmailsConcat(ns: Namespace, a: seq<Id>, b: seq<Id>)
    ensures Emails(ns, a + b) == Emails(ns, a) + Emails(ns, b)
  {
  }

  lemma EmailIn(ns: Namespace, ids: seq<Id>, x: string) returns (id: Id)
    requires x in Emails(ns, ids)
    ensures id in ids && id.Email(ns) == x
  {
    var k :| 0 <= k < |ids| && Emails(ns, ids)[k] == x;
    id := ids[k];
  }

  lemma InEmails(ns: Namespace, ids: seq<Id>, id: Id)
    requires id in ids
    ensures id.Email(ns) in Emails(ns, ids)
  {
    var k :| 0 <= k < |ids| && ids[k] == id;
    assert Emails(ns, ids)[k] == id.Email(ns);
  }

  lemma WantedDistinct(ns: Namespace, u: User)
    requires NoDup(Emails(ns, UserIds()(u)))
    ensures NoDup(Emails(ns, Wanted()(u)))
  {
    var all, w := UserIds()(u), Wanted()(u);
    if Access.Wireguard in u.access {
      var shift := if Access.Server in u.access then 0 else 1;
      forall i, j | 0 <= i < j < |w| ensures Emails(ns, w)[i] != Emails(ns, w)[j] {
        var k, l := if i == 0 then 0 else i + shift, j + shift;
        assert w[i] == all[k] && w[j] == all[l];
        assert Emails(ns, all)[k] != Emails(ns, all)[l];
      }
    }
  }

  lemma {:induction false} RequestsDistinct(ns: Namespace, users: seq<User>)
    requires NoDup(Emails(ns, FlatMap(UserIds(), users)))
    ensures NoDup(Emails(ns, Requests(users)))
  {
    if users != [] {
      var front, last := users[..|users| - 1], users[|users| - 1];
      var a, b := FlatMap(UserIds(), front), UserIds()(last);
      EmailsConcat(ns, a, b);
      NoDupConcat(Emails(ns, a), Emails(ns, b));
      RequestsDistinct(ns, front);
      WantedDistinct(ns, last);
      EmailsConcat(ns, Requests(front), Wanted()(last));
      forall x | x in Emails(ns, Requests(front)) ensures x !in Emails(ns, Wanted()(last)) {
        RequestEmailKnown(ns, front, x);
        LastEmailKnown(ns, last, x);
      }
      NoDupConcat(Emails(ns, Requests(front)), Emails(ns, Wanted()(last)));
    }
  }

  lemma RequestEmailKnown(ns: Namespace, users: seq<User>, x: string)
    requires x in Emails(ns, Requests(users))
    ensures x in Emails(ns, FlatMap(UserIds(), users))
  {
    var id := EmailIn(ns, Requests(users), x);
    FlatMapMember(Wanted(), users, id);
    var u :| u in users && id in Wanted()(u);
    WantedWithin(u);
    FlatMapMember(UserIds(), users, id);
    InEmails(ns, FlatMap(UserIds(), users), id);
  }

  lemma LastEmailKnown(ns: Namespace, u: User, x: string)
    ensures x in Emails(ns, Wanted()(u)) ==> x in Emails(ns, UserIds()(u))
  {
    if x in Emails(ns, Wanted()(u)) {
      var id := EmailIn(ns, Wanted()(u), x);
      WantedWithin(u);
      InEmails(ns, UserIds()(u), id);
    }
  }

  /**
   * The client config of any identity that is given a peer finds that peer: its own UUID and the
   * very address the inbound allocates, on every subnet that holds all peers.
   */
  lemma LookupFindsOwnPeer(c: Config, ns: Namespace, s: Subnet, id: Id)
    requires FieldsValid(c) && NoDup(Usernames(c.users)) && NoDup(PortalIds(c.portals)) && ns.name == c.namespace
    requires NoDup(Uuids(ns, HubIdentities(c))) && NamespaceClear(c)
    requires s.Valid() && id in Requests(c.users)
    ensures var peers := Allocated(ns, s, Requests(c.users));
            && id.Email(ns) in ByEmail(peers)
            && var peer := ByEmail(peers)[id.Email(ns)];
               peer in peers && peer.id == id && peer.uuid == id.Uuid(ns)
  {
    CollisionFreeNames(c, ns);
    EmailsConcat(ns, FlatMap(UserIds(), c.users), FlatMap(PortalId(), c.portals));
    NoDupConcat(Emails(ns, FlatMap(UserIds(), c.users)), Emails(ns, FlatMap(PortalId(), c.portals)));
    RequestsDistinct(ns, c.users);
    var ids := Requests(c.users);
    var peers := Allocated(ns, s, ids);
    var i :| 0 <= i < |ids| && ids[i] == id;
    forall j, k | 0 <= j < k < |peers| ensures peers[j].email != peers[k].email {
      assert Emails(ns, ids)[j] != Emails(ns, ids)[k];
    }
    ByEmailFinds(peers, i);
  }
}
