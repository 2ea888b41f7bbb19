/**
 The WireGuard service's peers and the tunnel addresses they hold. Adding a
 peer takes an address of each family, gives the IPv6 one back when IPv6 is
 off, and gives everything back when the tool fails.
 */
module WireGuard {
  import opened Basics
  import opened Addresses
  import opened Networks
  import opened Pools

  datatype Peer = Peer(v4: IP, v6: IP)

  datatype Tunnel = Tunnel(v4: Pool, v6: Pool, peers: map<string, Peer>, ipv6: bool)

  datatype AddResult = Added(peer: Peer) | Full | ToolFailed

  datatype Adding = Adding(tunnel: Tunnel, result: AddResult)

  const ZERO_V6: IP := [0, 0, 0, 0, 0, 0, 0, 0, 0, 0, 0, 0, 0, 0, 0, 0]

  predicate Usable(t: Tunnel) {
    |t.v4.current| > 1 && ValidNet(t.v4.net) && |t.v6.current| > 1 && ValidNet(t.v6.net)
  }

  /** Storing a peer never overwrites one already there. */
  function Put(peers: map<string, Peer>, identity: string, peer: Peer): map<string, Peer> {
    if identity in peers then peers else peers[identity := peer]
  }

  function AddPeer(t: Tunnel, identity: string, toolFails: bool): Adding
    requires Usable(t)
  {
    var g4 := Get(t.v4);
    if g4.ip.None? then Adding(t.(v4 := g4.pool), Full)
    else
      var g6 := Get(t.v6);
      if g6.ip.None? then Adding(t.(v4 := Release(g4.pool, g4.ip.value), v6 := g6.pool), Full)
      else
        var pool6 := if t.ipv6 then g6.pool else Release(g6.pool, g6.ip.value);
        var peer := Peer(g4.ip.value, if t.ipv6 then g6.ip.value else ZERO_V6);
        if toolFails then
          Adding(t.(v4 := Release(g4.pool, peer.v4), v6 := Release(pool6, peer.v6)), ToolFailed)
        else
          Adding(t.(v4 := g4.pool, v6 := pool6, peers := Put(t.peers, identity, peer)), Added(peer))
  }

  /** A peer is found unless its identity is empty. */
  predicate HasPeer(t: Tunnel, identity: string) { identity != "" && identity in t.peers }

  function RemovePeer(t: Tunnel, identity: string, toolFails: bool): Tunnel {
    if toolFails || !HasPeer(t, identity) then t
    else
      var peer := t.peers[identity];
      t.(v4 := Release(t.v4, peer.v4), v6 := Release(t.v6, peer.v6), peers := t.peers - {identity})
  }

  // ---- who holds which address ----

  function Held4(peers: map<string, Peer>): set<IP> { set k | k in peers :: peers[k].v4 }

  function Held6(peers: map<string, Peer>): set<IP> { set k | k in peers :: peers[k].v6 }

  ghost predicate NoSharing(peers: map<string, Peer>, ipv6: bool) {
    forall k, l :: k in peers && l in peers && k != l ==>
      peers[k].v4 != peers[l].v4 && (ipv6 ==> peers[k].v6 != peers[l].v6)
  }

  /**
   The reserved IPv4 addresses are exactly the live peers', each held by one
   peer; so are the IPv6 ones when IPv6 is on, and none is reserved when off.
   */
  ghost predicate Books(peers: map<string, Peer>, ipv6: bool, reserved4: set<IP>, reserved6: set<IP>) {
    && reserved4 == Held4(peers)
    && NoSharing(peers, ipv6)
    && (if ipv6 then reserved6 == Held6(peers)
        else reserved6 == {} && forall k :: k in peers ==> peers[k].v6 == ZERO_V6)
  }

  ghost predicate Exact(t: Tunnel) {
    Valid(t.v4) && Valid(t.v6) && Books(t.peers, t.ipv6, t.v4.reserved, t.v6.reserved)
  }

  lemma ZeroNeverReserved(p: Pool)
    requires Valid(p)
    ensures ZERO_V6 !in p.reserved
  {
    if ZERO_V6 in p.reserved {
      assert Issued(p, ZERO_V6);
      LeadingByte(ZERO_V6);
    }
  }

  lemma PutHeld(peers: map<string, Peer>, identity: string, peer: Peer)
    requires identity !in peers
    ensures Held4(peers[identity := peer]) == Held4(peers) + {peer.v4}
    ensures Held6(peers[identity := peer]) == Held6(peers) + {peer.v6}
  {
    var after := peers[identity := peer];
    assert forall k :: k in peers ==> k in after && after[k] == peers[k];
    assert after[identity] == peer;
  }

  lemma RemoveHeld(peers: map<string, Peer>, identity: string, ipv6: bool)
    requires identity in peers && NoSharing(peers, ipv6)
    ensures Held4(peers - {identity}) == Held4(peers) - {peers[identity].v4}
    ensures ipv6 ==> Held6(peers - {identity}) == Held6(peers) - {peers[identity].v6}
  {
    var after := peers - {identity};
    assert forall k :: k in after ==> k in peers && k != identity && after[k] == peers[k];
    assert forall k :: k in peers && k != identity ==> k in after;
  }

  /** The pools after an attempt, in terms of what is reserved. */
  lemma AddPeerPools(t: Tunnel, identity: string, toolFails: bool)
    requires Valid(t.v4) && Valid(t.v6)
    ensures Usable(t)
    ensures var a := AddPeer(t, identity, toolFails);
            && Valid(a.tunnel.v4) && Valid(a.tunnel.v6) && a.tunnel.ipv6 == t.ipv6
            && (a.result.Added? ==>
                  && a.result.peer.v4 !in t.v4.reserved && Assignable(t.v4, a.result.peer.v4)
                  && a.tunnel.v4.reserved == t.v4.reserved + {a.result.peer.v4}
                  && a.tunnel.peers == Put(t.peers, identity, a.result.peer)
                  && (if t.ipv6 then a.result.peer.v6 !in t.v6.reserved && Assignable(t.v6, a.result.peer.v6)
                                     && a.tunnel.v6.reserved == t.v6.reserved + {a.result.peer.v6}
                      else a.result.peer.v6 == ZERO_V6 && a.tunnel.v6.reserved == t.v6.reserved))
            && (!a.result.Added? ==> a.tunnel.peers == t.peers && a.tunnel.v4.reserved == t.v4.reserved
                                     && a.tunnel.v6.reserved == t.v6.reserved)
  {
    GetCorrect(t.v4);
    GetCorrect(t.v6);
    var g4, g6 := Get(t.v4), Get(t.v6);
    if g4.ip.Some? {
      ReleaseCorrect(g4.pool, g4.ip.value);
      if g6.ip.Some? {
        ReleaseCorrect(g6.pool, g6.ip.value);
        var pool6 := Release(g6.pool, g6.ip.value);
        ZeroNeverReserved(pool6);
        ReleaseCorrect(pool6, ZERO_V6);
      }
    }
  }

  lemma PutNoSharing(peers: map<string, Peer>, ipv6: bool, identity: string, peer: Peer)
    requires NoSharing(peers, ipv6) && identity !in peers
    requires peer.v4 !in Held4(peers) && (ipv6 ==> peer.v6 !in Held6(peers))
    ensures NoSharing(peers[identity := peer], ipv6)
  {
  }

  lemma PutBooks(
    peers: map<string, Peer>, ipv6: bool, reserved4: set<IP>, reserved6: set<IP>, identity: string, peer: Peer)
    requires Books(peers, ipv6, reserved4, reserved6) && identity !in peers
    requires peer.v4 !in reserved4
    requires if ipv6 then peer.v6 !in reserved6 else peer.v6 == ZERO_V6
    ensures Books(peers[identity := peer], ipv6, reserved4 + {peer.v4},
                  if ipv6 then reserved6 + {peer.v6} else reserved6)
  {
    PutHeld(peers, identity, peer);
    PutNoSharing(peers, ipv6, identity, peer);
  }

  lemma RemoveBooks(peers: map<string, Peer>, ipv6: bool, reserved4: set<IP>, reserved6: set<IP>, identity: string)
    requires Books(peers, ipv6, reserved4, reserved6) && identity in peers
    ensures Books(peers - {identity}, ipv6, reserved4 - {peers[identity].v4},
                  if ipv6 then reserved6 - {peers[identity].v6} else reserved6)
  {
    RemoveHeld(peers, identity, ipv6);
  }

  /** No address is left to give. */
  ghost predicate AllReserved(p: Pool)
    requires Valid(p)
  {
    forall a :: Assignable(p, a) ==> a in p.reserved
  }

  lemma AddedIff(t: Tunnel, identity: string, toolFails: bool)
    requires Valid(t.v4) && Valid(t.v6)
    ensures Usable(t)
    ensures AddPeer(t, identity, toolFails).result.Added? <==>
      !toolFails && !AllReserved(t.v4) && !AllReserved(t.v6)
  {
    GetCorrect(t.v4);
    GetCorrect(t.v6);
  }

  lemma AddedBooks(t: Tunnel, identity: string, toolFails: bool)
    requires Exact(t)
    ensures Usable(t)
    ensures var a := AddPeer(t, identity, toolFails);
            Exact(a.tunnel) <==> identity !in t.peers || !a.result.Added?
  {
    AddPeerPools(t, identity, toolFails);
    var a := AddPeer(t, identity, toolFails);
    if a.result.Added? {
      if identity in t.peers {
        assert a.result.peer.v4 in a.tunnel.v4.reserved && a.result.peer.v4 !in Held4(a.tunnel.peers);
      } else {
        PutBooks(t.peers, t.ipv6, t.v4.reserved, t.v6.reserved, identity, a.result.peer);
      }
    }
  }

  /**
   The books stay exact through an attempt to add a peer exactly when the key
   is not held, the tool fails or an address is not to be had: otherwise a key
   that is held keeps its first address, and the new one stays reserved for
   nobody.
   */
  lemma AddPeerExact(t: Tunnel, identity: string, toolFails: bool)
    requires Exact(t)
    ensures Usable(t)
    ensures Exact(AddPeer(t, identity, toolFails).tunnel) <==>
      identity !in t.peers || toolFails || AllReserved(t.v4) || AllReserved(t.v6)
  {
    AddedBooks(t, identity, toolFails);
    AddedIff(t, identity, toolFails);
  }

  lemma RemovePeerExact(t: Tunnel, identity: string, toolFails: bool)
    requires Exact(t)
    ensures Exact(RemovePeer(t, identity, toolFails))
    ensures HasPeer(t, identity) && !toolFails ==>
      RemovePeer(t, identity, toolFails).v4.reserved == t.v4.reserved - {t.peers[identity].v4}
  {
    if HasPeer(t, identity) && !toolFails {
      var peer := t.peers[identity];
      RemoveBooks(t.peers, t.ipv6, t.v4.reserved, t.v6.reserved, identity);
      ReleaseCorrect(t.v4, peer.v4);
      ReleaseCorrect(t.v6, peer.v6);
      ZeroNeverReserved(t.v6);
    }
  }

  // ---- over any sequence of operations ----

  datatype Op = Add(identity: string, toolFails: bool) | Remove(identity: string, toolFails: bool)

  function Step(t: Tunnel, op: Op): Tunnel
    requires Usable(t)
  {
    match op
    case Add(identity, toolFails) => AddPeer(t, identity, toolFails).tunnel
    case Remove(identity, toolFails) => RemovePeer(t, identity, toolFails)
  }

  /** The operations lead from t to q, adding only keys not held at the time. */
  ghost predicate Leads(t: Tunnel, ops: seq<Op>, q: Tunnel)
    decreases |ops|
  {
    if ops == [] then t == q
    else Usable(t) && (ops[0].Add? ==> ops[0].identity !in t.peers) && Leads(Step(t, ops[0]), ops[1..], q)
  }

  /** Through any such sequence, with tools failing at will, the books stay exact. */
  lemma {:induction false} AlwaysExact(t: Tunnel, ops: seq<Op>, q: Tunnel)
    requires Exact(t) && Leads(t, ops, q)
    ensures Exact(q)
    decreases |ops|
  {
    if ops != [] {
      var op := ops[0];
      if op.Add? {
        AddPeerExact(t, op.identity, op.toolFails);
      } else {
        RemovePeerExact(t, op.identity, op.toolFails);
      }
      AlwaysExact(Step(t, op), ops[1..], q);
    }
  }

  // ---- room for every peer ----

  /** The network of addresses with these leading bytes and one more. */
  function OneByteNet(prefix: IP): Net { Net(prefix + [0], 8 * |prefix|) }

  lemma HostValue(prefix: IP, k: Byte)
    ensures Value(prefix + [k]) == 256 * Value(prefix) + k
  {
    SamePrefix(prefix + [k], prefix, |prefix|);
  }

  lemma OneByteRange(prefix: IP, k: Byte)
    requires prefix != []
    ensures ValidNet(OneByteNet(prefix)) && Size(OneByteNet(prefix)) == 256
    ensures Contains(OneByteNet(prefix), prefix + [k])
    ensures End(OneByteNet(prefix)) == 256 * Value(prefix) + 256
  {
    HostValue(prefix, 0);
    HostValue(prefix, k);
    assert Pow2(4) == 16 && Pow2(8) == 256;
    MaskUnique(256 * Value(prefix) + k, Value(prefix), 256);
    MaskUnique(256 * Value(prefix), Value(prefix), 256);
  }

  /** A pool over such a network from its third address, as the defaults are. */
  function HostPool(prefix: IP, skip: bool): Pool { NewPool(OneByteNet(prefix), skip, prefix + [2]) }

  lemma HostPoolValid(prefix: IP, skip: bool)
    requires prefix != [] && 0 < prefix[0] < 255
    ensures Valid(HostPool(prefix, skip))
  {
    OneByteRange(prefix, 2);
    HostValue(prefix, 2);
    LeadingByte(prefix + [2]);
    FirstByte(prefix, |prefix|);
    assert (prefix[0] as int + 1) * Pow256(|prefix| - 1) <= 255 * Pow256(|prefix| - 1) by {
      MulMonotone(prefix[0] as int + 1, 255, Pow256(|prefix| - 1));
    }
    NewPoolValid(OneByteNet(prefix), skip, prefix + [2]);
  }

  function Hosts(prefix: IP, lo: Byte, n: nat): set<IP>
    requires lo as int + n <= 256
  {
    set k: Byte | lo as int <= k < lo as int + n :: prefix + [k]
  }

  lemma HostsApart(prefix: IP, k: Byte, l: Byte)
    requires k != l
    ensures prefix + [k] != prefix + [l]
  {
    assert (prefix + [k])[|prefix|] == k && (prefix + [l])[|prefix|] == l;
  }

  lemma OneHostMore(prefix: IP, lo: Byte, n: nat, top: Byte)
    requires n > 0 && lo as int + n <= 256 && top as int == lo as int + n - 1
    ensures Hosts(prefix, lo, n) == Hosts(prefix, lo, n - 1) + {prefix + [top]}
    ensures prefix + [top] !in Hosts(prefix, lo, n - 1)
  {
    forall k: Byte | lo as int <= k < top ensures prefix + [k] != prefix + [top] {
      HostsApart(prefix, k, top);
    }
  }

  lemma {:induction false} HostsSize(prefix: IP, lo: Byte, n: nat)
    requires lo as int + n <= 256
    ensures |Hosts(prefix, lo, n)| == n
  {
    if n > 0 {
      HostsSize(prefix, lo, n - 1);
      OneHostMore(prefix, lo, n, lo as int + n - 1);
    } else {
      assert Hosts(prefix, lo, n) == {};
    }
  }

  lemma HostsAssignable(p: Pool, prefix: IP, lo: Byte, n: nat)
    requires Valid(p) && prefix != [] && p.net == OneByteNet(prefix) && p.start == prefix + [2]
    requires 2 <= lo && lo as int + n <= (if p.skip then 255 else 256)
    ensures forall a :: a in Hosts(prefix, lo, n) ==> Assignable(p, a)
  {
    forall a | a in Hosts(prefix, lo, n) ensures Assignable(p, a) {
      var k: Byte :| lo <= k < lo as int + n && a == prefix + [k];
      OneByteRange(prefix, k);
      HostValue(prefix, 2);
      HostValue(prefix, k);
    }
  }

  lemma {:induction false} HeldSize(peers: map<string, Peer>)
    ensures |Held4(peers)| <= |peers| && |Held6(peers)| <= |peers|
    decreases |peers|
  {
    if peers != map[] {
      var k :| k in peers;
      var rest := peers - {k};
      HeldSize(rest);
      assert rest[k := peers[k]] == peers;
      PutHeld(rest, k, peers[k]);
    }
  }

  /** The pools of a node with the default networks, or any two such. */
  ghost predicate OnHostPools(t: Tunnel, prefix4: IP, prefix6: IP) {
    && prefix4 != [] && prefix6 != []
    && t.v4.net == OneByteNet(prefix4) && t.v4.start == prefix4 + [2] && t.v4.skip
    && t.v6.net == OneByteNet(prefix6) && t.v6.start == prefix6 + [2] && !t.v6.skip
  }

  /** Adding a peer fails for lack of an address only with 253 peers live. */
  lemma FullOnlyWhenFull(t: Tunnel, prefix4: IP, prefix6: IP, identity: string, toolFails: bool)
    requires Exact(t) && OnHostPools(t, prefix4, prefix6)
    ensures Usable(t)
    ensures AddPeer(t, identity, toolFails).result.Full? ==> |t.peers| >= 253
  {
    GetCorrect(t.v4);
    GetCorrect(t.v6);
    HeldSize(t.peers);
    if Get(t.v4).ip.None? {
      HostsAssignable(t.v4, prefix4, 2, 253);
      HostsSize(prefix4, 2, 253);
      SubsetSize(Hosts(prefix4, 2, 253), t.v4.reserved);
    }
    if Get(t.v6).ip.None? {
      HostsAssignable(t.v6, prefix6, 2, 254);
      HostsSize(prefix6, 2, 254);
      SubsetSize(Hosts(prefix6, 2, 254), t.v6.reserved);
    }
  }

  /** A service with no peers on two such networks. */
  function HostTunnel(prefix4: IP, prefix6: IP, ipv6: bool): Tunnel {
    Tunnel(HostPool(prefix4, true), HostPool(prefix6, false), map[], ipv6)
  }

  predicate SamePools(a: Tunnel, b: Tunnel) { SamePool(a.v4, b.v4) && SamePool(a.v6, b.v6) }

  predicate SamePool(a: Pool, b: Pool) { a.net == b.net && a.start == b.start && a.skip == b.skip }

  lemma AddKeepsPools(t: Tunnel, identity: string, toolFails: bool)
    requires Usable(t)
    ensures SamePools(t, AddPeer(t, identity, toolFails).tunnel)
  {
  }

  lemma StepKeepsPools(t: Tunnel, op: Op)
    requires Usable(t)
    ensures SamePools(t, Step(t, op))
  {
    if op.Add? {
      AddKeepsPools(t, op.identity, op.toolFails);
    }
  }

  lemma {:induction false} LeadsKeepsPools(t: Tunnel, ops: seq<Op>, q: Tunnel)
    requires Leads(t, ops, q)
    ensures SamePools(t, q)
    decreases |ops|
  {
    if ops != [] {
      var next := Step(t, ops[0]);
      StepKeepsPools(t, ops[0]);
      LeadsKeepsPools(next, ops[1..], q);
    }
  }

  lemma HostTunnelsHaveRoom(
    prefix4: IP, prefix6: IP, ipv6: bool, ops: seq<Op>, q: Tunnel, identity: string, toolFails: bool)
    requires prefix4 != [] && 0 < prefix4[0] < 255 && prefix6 != [] && 0 < prefix6[0] < 255
    requires Leads(HostTunnel(prefix4, prefix6, ipv6), ops, q) && |q.peers| < 253
    ensures Usable(q) && !AddPeer(q, identity, toolFails).result.Full?
  {
    var t := HostTunnel(prefix4, prefix6, ipv6);
    HostPoolValid(prefix4, true);
    HostPoolValid(prefix6, false);
    AlwaysExact(t, ops, q);
    LeadsKeepsPools(t, ops, q);
    FullOnlyWhenFull(q, prefix4, prefix6, identity, toolFails);
  }

  const DEFAULT_PREFIX_V4: IP := [10, 8, 0]
  const DEFAULT_PREFIX_V6: IP := [0xfd, 0x86, 0xea, 0x04, 0x11, 0x15, 0, 0, 0, 0, 0, 0, 0, 0, 0]
  const MAX_PEERS := 250

  /**
   On the default networks 10.8.0.2/24 and fd86:ea04:1115::2/120, after any
   sequence of operations, a peer is never refused for lack of an address
   while fewer than max_peers are live.
   */
  lemma DefaultsHaveRoom(ipv6: bool, ops: seq<Op>, q: Tunnel, identity: string, toolFails: bool)
    requires Leads(HostTunnel(DEFAULT_PREFIX_V4, DEFAULT_PREFIX_V6, ipv6), ops, q) && |q.peers| < MAX_PEERS
    ensures Usable(q) && !AddPeer(q, identity, toolFails).result.Full?
  {
    HostTunnelsHaveRoom(DEFAULT_PREFIX_V4, DEFAULT_PREFIX_V6, ipv6, ops, q, identity, toolFails);
  }

  lemma HostTunnelExact(prefix4: IP, prefix6: IP, ipv6: bool)
    requires prefix4 != [] && 0 < prefix4[0] < 255 && prefix6 != [] && 0 < prefix6[0] < 255
    ensures var t := HostTunnel(prefix4, prefix6, ipv6); Exact(t) && OnHostPools(t, prefix4, prefix6)
  {
    HostPoolValid(prefix4, true);
    HostPoolValid(prefix6, false);
  }

  /** One key added twice, and the books are wrong: the second address is reserved for nobody. */
  lemma AddedTwice(prefix4: IP, prefix6: IP, ipv6: bool, identity: string)
    requires prefix4 != [] && 0 < prefix4[0] < 255 && prefix6 != [] && 0 < prefix6[0] < 255
    ensures var t := HostTunnel(prefix4, prefix6, ipv6);
            && Usable(t)
            && var once := AddPeer(t, identity, false).tunnel;
               && identity in once.peers && Exact(once) && Usable(once)
               && var twice := AddPeer(once, identity, false);
                  twice.result.Added? && twice.tunnel.peers == once.peers && !Exact(twice.tunnel)
  {
    var t := HostTunnel(prefix4, prefix6, ipv6);
    HostTunnelExact(prefix4, prefix6, ipv6);
    AddedWithRoom(t, prefix4, prefix6, identity);
    AddedWithRoom(AddPeer(t, identity, false).tunnel, prefix4, prefix6, identity);
  }

  /** With room and a tool that works, a peer is added, and the books say what they should or not. */
  lemma AddedWithRoom(t: Tunnel, prefix4: IP, prefix6: IP, identity: string)
    requires Exact(t) && OnHostPools(t, prefix4, prefix6) && |t.peers| < 253
    ensures Usable(t)
    ensures var a := AddPeer(t, identity, false);
            && a.result.Added? && OnHostPools(a.tunnel, prefix4, prefix6)
            && a.tunnel.peers == Put(t.peers, identity, a.result.peer)
            && (Exact(a.tunnel) <==> identity !in t.peers)
  {
    AddedBooks(t, identity, false);
    FullOnlyWhenFull(t, prefix4, prefix6, identity, false);
    AddKeepsPools(t, identity, false);
  }

  // ---- in place ----

  class Service {
    const v4: AddressPool
    const v6: AddressPool
    const ipv6: bool
    var peers: map<string, Peer>

    constructor (v4: AddressPool, v6: AddressPool, ipv6: bool)
      ensures this.v4 == v4 && this.v6 == v6 && this.ipv6 == ipv6 && peers == map[]
    {
      this.v4, this.v6, this.ipv6 := v4, v6, ipv6;
      peers := map[];
    }

    ghost function View(): Tunnel
      reads this, v4, v6
    {
      Tunnel(v4.View(), v6.View(), peers, ipv6)
    }

    /** One address of each family, or neither. */
    method TakeBoth() returns (got: Option<Peer>)
      requires v4 != v6 && Usable(View())
      modifies v4, v6
      ensures var g4, g6 := Get(old(v4.View())), Get(old(v6.View()));
              && (g4.ip.None? ==> got == None && v4.View() == g4.pool && v6.View() == old(v6.View()))
              && (g4.ip.Some? && g6.ip.None? ==>
                    got == None && v4.View() == Release(g4.pool, g4.ip.value) && v6.View() == g6.pool)
              && (g4.ip.Some? && g6.ip.Some? ==>
                    got == Some(Peer(g4.ip.value, g6.ip.value)) && v4.View() == g4.pool && v6.View() == g6.pool)
    {
      var a := v4.Take();
      if a.None? {
        return None;
      }
      var b := v6.Take();
      if b.None? {
        v4.GiveBack(a.value);
        return None;
      }
      got := Some(Peer(a.value, b.value));
    }

    method Connect(identity: string, toolFails: bool) returns (result: AddResult)
      requires v4 != v6 && Usable(View())
      modifies this, v4, v6
      ensures Adding(View(), result) == AddPeer(old(View()), identity, toolFails)
    {
      var got := TakeBoth();
      if got.None? {
        return Full;
      }
      var peer := got.value;
      if !ipv6 {
        v6.GiveBack(peer.v6);
        peer := peer.(v6 := ZERO_V6);
      }
      if toolFails {
        v4.GiveBack(peer.v4);
        v6.GiveBack(peer.v6);
        return ToolFailed;
      }
      if identity !in peers {
        peers := peers[identity := peer];
      }
      result := Added(peer);
    }

    method Disconnect(identity: string, toolFails: bool)
      requires v4 != v6
      modifies this, v4, v6
      ensures View() == RemovePeer(old(View()), identity, toolFails)
    {
      if !toolFails && identity != "" && identity in peers {
        var peer := peers[identity];
        peers := peers - {identity};
        v4.GiveBack(peer.v4);
        v6.GiveBack(peer.v6);
      }
    }
  }
}
