/**
 The AmneziaWG service's two tiers: the tunnel networks each gets from its
 settings or its key, and the recovery of a peer's tier from its address.
 */
module Amnezia {
  import opened Basics
  import opened Addresses
  import opened Networks
  import opened Pools
  import opened WireGuard

  datatype Result<+T> = Ok(value: T) | Err

  /** A subnet setting: empty, not a CIDR, or an address with a prefix length. */
  datatype Setting = Unset | Unreadable | Cidr(ip: IP, ones: nat)

  /** A tier's settings; the digest of its public key, if its private key is valid. */
  datatype Tier = Tier(ipv4: Setting, ipv6: Setting, digest: Option<seq<Byte>>)

  datatype TierNets = TierNets(v4: Net, v6: Net)

  /** The networks a tier gets from its key: 10.x.y.0/24 and a unique local /120. */
  function DeriveNetworks(digest: seq<Byte>): TierNets
    requires |digest| == 32
  {
    TierNets(Net([10, 11 + digest[0] % 240, digest[1], 0], 24),
             Net([0xfd] + digest[2..7] + [0, 0, 0, 0, 0, 0, 0, 0, 0, 0], 120))
  }

  predicate IsPrivate(ip: IP) {
    || (|ip| == 4 && (ip[0] == 10 || (ip[0] == 172 && 16 <= ip[1] < 32) || (ip[0] == 192 && ip[1] == 168)))
    || (|ip| == 16 && 0xfc <= ip[0] <= 0xfd)
  }

  /** The n low bytes of a number. */
  function Bytes(v: nat, n: nat): (b: seq<Byte>)
    ensures |b| == n
  {
    if n == 0 then [] else Bytes(v / 256, n - 1) + [v % 256]
  }

  function ParseSubnet(s: Setting, v6: bool): Result<Net> {
    if !s.Cidr? || |s.ip| != (if v6 then 16 else 4) || s.ones > 8 * |s.ip| then Err
    else if !IsPrivate(s.ip) then Err
    else if !v6 && (s.ones < 16 || s.ones > 28) then Err
    else if v6 && (s.ones < 64 || s.ones > 124) then Err
    else
      MaskedAbove(Value(s.ip), 0, Size(Net(s.ip, s.ones)));
      Ok(Net(Bytes(Masked(Value(s.ip), Size(Net(s.ip, s.ones))), |s.ip|), s.ones))
  }

  function TierNetworks(t: Tier): Result<TierNets> {
    if t.digest.None? || |t.digest.value| != 32 then Err
    else
      var derived := DeriveNetworks(t.digest.value);
      var v4 := if t.ipv4.Unset? then Ok(derived.v4) else ParseSubnet(t.ipv4, false);
      var v6 := if t.ipv6.Unset? then Ok(derived.v6) else ParseSubnet(t.ipv6, true);
      if v4.Err? || v6.Err? then Err else Ok(TierNets(v4.value, v6.value))
  }

  /** The /24 after a network, wrapping within its second byte. */
  function NextNet(net: Net): Net
    requires |net.base| == 4
  {
    Net([net.base[0], net.base[1], (net.base[2] as int + 1) % 256, 0], net.ones)
  }

  datatype Both = Both(def: TierNets, v3: Option<TierNets>)

  predicate ValidNets(n: TierNets) {
    ValidNet(n.v4) && |n.v4.base| == 4 && ValidNet(n.v6) && |n.v6.base| == 16
  }

  /** Masking keeps a byte string's number representable on as many bytes. */
  lemma {:induction false} BytesValue(v: nat, n: nat)
    requires v < Pow256(n)
    ensures Value(Bytes(v, n)) == v
  {
    if n > 0 {
      BytesValue(v / 256, n - 1);
      SamePrefix(Bytes(v, n), Bytes(v / 256, n - 1), n - 1);
    }
  }

  function TunnelNetworks(def: Tier, v3: Option<Tier>): (r: Result<Both>)
    ensures r.Ok? ==> r.value.v3.Some? == v3.Some?
  {
    var d := TierNetworks(def);
    if d.Err? then Err
    else if v3.None? then Ok(Both(d.value, None))
    else
      var w := TierNetworks(v3.value);
      if w.Err? then Err
      else
        TiersValid(def);
        TiersValid(v3.value);
        var v4 := if v3.value.ipv4.Unset? && Overlap(d.value.v4, w.value.v4) then NextNet(w.value.v4) else w.value.v4;
        if Overlap(d.value.v4, v4) || Overlap(d.value.v6, w.value.v6) then Err
        else Ok(Both(d.value, Some(TierNets(v4, w.value.v6))))
  }

  lemma TiersValid(t: Tier)
    requires TierNetworks(t).Ok?
    ensures ValidNets(TierNetworks(t).value)
  {
  }

  /** When both tiers' networks are settled, the tiers share no address of either family. */
  lemma TiersDisjoint(def: Tier, v3: Tier)
    requires TunnelNetworks(def, Some(v3)).Ok?
    ensures var b := TunnelNetworks(def, Some(v3)).value;
            && ValidNets(b.def) && ValidNets(b.v3.value)
            && Disjoint(b.def.v4, b.v3.value.v4) && Disjoint(b.def.v6, b.v3.value.v6)
  {
    TiersValid(def);
    TiersValid(v3);
    var b := TunnelNetworks(def, Some(v3)).value;
    OverlapIsExact(b.def.v4, b.v3.value.v4);
    OverlapIsExact(b.def.v6, b.v3.value.v6);
  }

  // ---- the pool over a tier's network ----

  /** The interface's own address: the first host. */
  function Interface(net: Net): IP { NextIP(net.base) }

  /** Peers get the addresses after it. */
  function TierPool(net: Net, skip: bool): Pool { NewPool(net, skip, NextIP(NextIP(net.base))) }

  /** A network whose base is its first address, with a first byte from 1 to 253 and room for hosts. */
  predicate Usual(net: Net) {
    && ValidNet(net) && |net.base| > 2
    && 16 <= net.ones <= 8 * |net.base| - 4
    && Low(net) == Value(net.base)
    && Pow256(|net.base| - 1) <= Value(net.base) < 254 * Pow256(|net.base| - 1)
  }

  /** The size divides the place of the first byte. */
  lemma SizeDivides(net: Net) returns (k: nat)
    requires ValidNet(net) && net.ones >= 8
    ensures Pow256(|net.base| - 1) == k * Size(net) && k > 0
  {
    var n := |net.base|;
    Pow2Bytes(n - 1);
    Pow2Splits(8 * (n - 1), 8 * n - net.ones);
    k := Pow2(net.ones - 8);
  }

  lemma FirstByteBounds(ip: IP)
    requires ip != []
    ensures 0 < ip[0] <= 253 ==> Pow256(|ip| - 1) <= Value(ip) < 254 * Pow256(|ip| - 1)
  {
    FirstByte(ip, |ip|);
    if 0 < ip[0] <= 253 {
      MulMonotone(1, ip[0], Pow256(|ip| - 1));
      MulMonotone(ip[0] as int + 1, 254, Pow256(|ip| - 1));
    }
  }

  /** Clearing the host bits keeps the number between the same first-byte bounds. */
  lemma MaskedBounds(v: nat, k: nat, size: nat)
    requires size > 0 && k * size <= v
    ensures k * size <= Masked(v, size) <= v
    ensures Masked(Masked(v, size), size) == Masked(v, size)
  {
    MaskedAbove(v, k, size);
    var q := MaskedIsMultiple(v, size);
    MaskUnique(q * size, q, size);
  }

  lemma ParsedUsual(s: Setting, v6: bool)
    requires ParseSubnet(s, v6).Ok?
    ensures Usual(ParseSubnet(s, v6).value)
  {
    var given := Net(s.ip, s.ones);
    FirstByteBounds(s.ip);
    ValueBound(s.ip, |s.ip|);
    var k := SizeDivides(given);
    MaskedBounds(Value(s.ip), k, Size(given));
    BytesValue(Masked(Value(s.ip), Size(given)), |s.ip|);
  }

  lemma LowByteZero(net: Net)
    requires ValidNet(net) && net.ones == 8 * |net.base| - 8 && net.base[|net.base| - 1] == 0
    ensures Low(net) == Value(net.base)
  {
  }

  lemma TiersUsual(t: Tier)
    requires TierNetworks(t).Ok?
    ensures Usual(TierNetworks(t).value.v4) && Usual(TierNetworks(t).value.v6)
    ensures t.ipv4.Unset? ==> Usual(NextNet(TierNetworks(t).value.v4))
  {
    var derived := DeriveNetworks(t.digest.value);
    if t.ipv4.Unset? {
      LowByteZero(derived.v4);
      FirstByteBounds(derived.v4.base);
      LowByteZero(NextNet(derived.v4));
      FirstByteBounds(NextNet(derived.v4).base);
    } else {
      ParsedUsual(t.ipv4, false);
    }
    if t.ipv6.Unset? {
      LowByteZero(derived.v6);
      FirstByteBounds(derived.v6.base);
    } else {
      ParsedUsual(t.ipv6, true);
    }
  }

  lemma SizeBounds(net: Net)
    requires Usual(net)
    ensures 16 <= Size(net) <= Pow256(|net.base| - 1)
    ensures Pow256(|net.base| - 1) >= 256
  {
    var n := |net.base|;
    Pow2Splits(8 * n - net.ones, 4);
    assert Pow2(4) == 16;
    var k := SizeDivides(net);
    MulMonotone(1, k, Size(net));
    PowMonotone(1, n - 1);
    assert Pow256(1) == 256;
  }

  /** A tier's pool is well placed and starts right after the interface's address. */
  lemma UsualPool(net: Net, skip: bool)
    requires Usual(net)
    ensures Valid(TierPool(net, skip))
    ensures Value(Interface(net)) == Low(net) + 1
    ensures Value(TierPool(net, skip).start) == Low(net) + 2
  {
    SizeBounds(net);
    NextSteps(net.base);
    NextSteps(NextIP(net.base));
    ContainsIsRange(net, NextIP(NextIP(net.base)));
    NewPoolValid(net, skip, NextIP(NextIP(net.base)));
  }

  // ---- the service ----

  const VERSION_DEFAULT := 2
  const VERSION_3 := 3

  /** The tiers and, per key, the tier its last peer request asked for. */
  datatype Service = Service(def: Tunnel, v3: Option<Tunnel>, asked: map<string, int>)

  function NewService(nets: Both, ipv6: bool): Service {
    Service(TierTunnel(nets.def, ipv6),
            if nets.v3.Some? then Some(TierTunnel(nets.v3.value, ipv6)) else None,
            map[])
  }

  function TierTunnel(nets: TierNets, ipv6: bool): Tunnel {
    Tunnel(TierPool(nets.v4, true), TierPool(nets.v6, false), map[], ipv6)
  }

  datatype Op =
    | Ask(identity: string, version: Option<int>)
    | Add(identity: string, toolFails: bool)
    | Remove(identity: string, toolFails: bool)

  /** A peer request: a version the node does not offer is refused. */
  function AskFor(s: Service, identity: string, version: Option<int>): Service {
    var tier := if version.Some? then version.value else VERSION_DEFAULT;
    if tier == VERSION_DEFAULT || (tier == VERSION_3 && s.v3.Some?)
    then s.(asked := s.asked[identity := tier]) else s
  }

  predicate TakesV3(s: Service, identity: string) {
    identity in s.asked && s.asked[identity] == VERSION_3 && s.v3.Some?
  }

  predicate Ready(s: Service) { Usable(s.def) && (s.v3.Some? ==> Usable(s.v3.value)) }

  datatype Added3 = Added3(service: Service, result: AddResult)

  function AddTo(s: Service, identity: string, toolFails: bool): Added3
    requires Ready(s)
  {
    var rest := s.(asked := s.asked - {identity});
    if TakesV3(s, identity) then
      var a := WireGuard.AddPeer(s.v3.value, identity, toolFails);
      Added3(rest.(v3 := Some(a.tunnel)), a.result)
    else
      var a := WireGuard.AddPeer(s.def, identity, toolFails);
      Added3(rest.(def := a.tunnel), a.result)
  }

  function RemoveFrom(s: Service, identity: string, toolFails: bool): Service {
    if s.v3.Some? && WireGuard.HasPeer(s.v3.value, identity)
    then s.(v3 := Some(WireGuard.RemovePeer(s.v3.value, identity, toolFails)))
    else s.(def := WireGuard.RemovePeer(s.def, identity, toolFails))
  }

  function Next(s: Service, op: Op): Service
    requires Ready(s)
  {
    match op
    case Ask(identity, version) => AskFor(s, identity, version)
    case Add(identity, toolFails) => AddTo(s, identity, toolFails).service
    case Remove(identity, toolFails) => RemoveFrom(s, identity, toolFails)
  }

  /** Whether the handshake answers a peer result with the 3.1 tier's entry. */
  predicate PayloadV3(s: Service, result: seq<Byte>)
    requires s.v3.Some? ==> ValidNet(s.v3.value.v4.net)
  {
    s.v3.Some? && |result| >= 4 && Contains(s.v3.value.v4.net, result[..4])
  }

  ghost predicate OnNets(t: Tunnel, nets: TierNets) {
    && Valid(t.v4) && Valid(t.v6)
    && t.v4.net == nets.v4 && t.v4.start == NextIP(NextIP(nets.v4.base))
    && t.v6.net == nets.v6 && t.v6.start == NextIP(NextIP(nets.v6.base))
  }

  /** Each tier hands out addresses of its own network, the networks being disjoint. */
  ghost predicate Separate(s: Service, nets: Both) {
    && OnNets(s.def, nets.def)
    && s.v3.Some? == nets.v3.Some?
    && Usual(nets.def.v4) && |nets.def.v4.base| == 4 && Usual(nets.def.v6)
    && (s.v3.Some? ==>
          && OnNets(s.v3.value, nets.v3.value)
          && Usual(nets.v3.value.v4) && |nets.v3.value.v4.base| == 4 && Usual(nets.v3.value.v6)
          && Disjoint(nets.def.v4, nets.v3.value.v4))
  }

  lemma StepOnNets(t: Tunnel, nets: TierNets, op: WireGuard.Op)
    requires OnNets(t, nets)
    ensures Usable(t) && OnNets(WireGuard.Step(t, op), nets)
  {
    match op
    case Add(identity, toolFails) =>
      AddPeerPools(t, identity, toolFails);
      StepKeepsPools(t, op);
    case Remove(identity, toolFails) =>
      if WireGuard.HasPeer(t, identity) {
        ReleaseCorrect(t.v4, t.peers[identity].v4);
        ReleaseCorrect(t.v6, t.peers[identity].v6);
      }
  }

  lemma NextSeparate(s: Service, nets: Both, op: Op)
    requires Separate(s, nets)
    ensures Ready(s) && Separate(Next(s, op), nets)
  {
    match op
    case Ask(identity, version) =>
    case Add(identity, toolFails) =>
      StepOnNets(s.def, nets.def, WireGuard.Op.Add(identity, toolFails));
      if s.v3.Some? {
        StepOnNets(s.v3.value, nets.v3.value, WireGuard.Op.Add(identity, toolFails));
      }
    case Remove(identity, toolFails) =>
      StepOnNets(s.def, nets.def, WireGuard.Op.Remove(identity, toolFails));
      if s.v3.Some? {
        StepOnNets(s.v3.value, nets.v3.value, WireGuard.Op.Remove(identity, toolFails));
      }
  }

  lemma NewServiceSeparate(def: Tier, v3: Option<Tier>, ipv6: bool)
    requires TunnelNetworks(def, v3).Ok?
    ensures Separate(NewService(TunnelNetworks(def, v3).value, ipv6), TunnelNetworks(def, v3).value)
  {
    var nets := TunnelNetworks(def, v3).value;
    TiersUsual(def);
    TiersValid(def);
    UsualPool(nets.def.v4, true);
    UsualPool(nets.def.v6, false);
    if v3.Some? {
      TiersUsual(v3.value);
      TiersDisjoint(def, v3.value);
      UsualPool(nets.v3.value.v4, true);
      UsualPool(nets.v3.value.v6, false);
    }
  }

  ghost predicate Reach(s: Service, ops: seq<Op>, q: Service)
    decreases |ops|
  {
    if ops == [] then s == q else Ready(s) && Reach(Next(s, ops[0]), ops[1..], q)
  }

  lemma {:induction false} AlwaysSeparate(s: Service, nets: Both, ops: seq<Op>, q: Service)
    requires Separate(s, nets) && Reach(s, ops, q)
    ensures Separate(q, nets)
    decreases |ops|
  {
    if ops != [] {
      NextSeparate(s, nets, ops[0]);
      AlwaysSeparate(Next(s, ops[0]), nets, ops[1..], q);
    }
  }

  /** Neither of the peer's addresses is the interface's. */
  predicate NotInterface(t: Tunnel, nets: TierNets, peer: Peer) {
    peer.v4 != Interface(nets.v4) && (t.ipv6 ==> peer.v6 != Interface(nets.v6))
  }

  /** A peer added to a tier gets addresses of its networks, and not the interface's. */
  lemma AddedInNet(t: Tunnel, nets: TierNets, identity: string, toolFails: bool)
    requires OnNets(t, nets) && Usual(nets.v4) && Usual(nets.v6)
    ensures Usable(t)
    ensures var a := WireGuard.AddPeer(t, identity, toolFails);
            a.result.Added? ==> Contains(nets.v4, a.result.peer.v4) && NotInterface(t, nets, a.result.peer)
  {
    AddPeerPools(t, identity, toolFails);
    UsualPool(nets.v4, true);
    UsualPool(nets.v6, false);
  }

  function TierOf(s: Service, v3: bool): Tunnel { if v3 && s.v3.Some? then s.v3.value else s.def }

  function NetsOf(nets: Both, v3: bool): TierNets { if v3 && nets.v3.Some? then nets.v3.value else nets.def }

  /** An addition changes the tier it goes to alone, and puts a new key there with its addresses. */
  lemma AddedToTier(s: Service, identity: string, toolFails: bool)
    requires Ready(s)
    ensures var a := AddTo(s, identity, toolFails);
            var t := TierOf(a.service, TakesV3(s, identity));
            && (TakesV3(s, identity) ==> a.service.def == s.def)
            && (!TakesV3(s, identity) ==> a.service.v3 == s.v3)
            && (a.result.Added? && identity !in TierOf(s, TakesV3(s, identity)).peers ==>
                  identity in t.peers && t.peers[identity] == a.result.peer)
            && a.service.asked == s.asked - {identity}
  {
  }

  lemma PayloadOfTier(s: Service, nets: Both, identity: string, toolFails: bool)
    requires Separate(s, nets)
    ensures Ready(s)
    ensures var a := AddTo(s, identity, toolFails);
            a.result.Added? ==>
              && (a.service.v3.Some? ==> ValidNet(a.service.v3.value.v4.net))
              && (PayloadV3(a.service, a.result.peer.v4 + a.result.peer.v6) <==> TakesV3(s, identity))
              && NotInterface(TierOf(s, TakesV3(s, identity)), NetsOf(nets, TakesV3(s, identity)), a.result.peer)
  {
    NextSeparate(s, nets, Op.Add(identity, toolFails));
    if TakesV3(s, identity) {
      AddedInNet(s.v3.value, nets.v3.value, identity, toolFails);
    } else {
      AddedInNet(s.def, nets.def, identity, toolFails);
    }
    var a := AddTo(s, identity, toolFails);
    if a.result.Added? {
      var peer := a.result.peer;
      assert (peer.v4 + peer.v6)[..4] == peer.v4;
    }
  }

  /**
   Whether a key waits to be added to the 3.1 tier: its last request since it
   was last added asked for version 3. Requests for versions there are none of
   do not count.
   */
  function Wants(before: bool, op: Op, identity: string): bool {
    match op
    case Ask(k, version) =>
      if k != identity then before
      else if version == Some(3) then true
      else if version.None? || version == Some(2) then false
      else before
    case Add(k, _) => before && k != identity
    case Remove(_, _) => before
  }

  function WantsAfter(before: bool, ops: seq<Op>, identity: string): bool
    decreases |ops|
  {
    if ops == [] then before else WantsAfter(Wants(before, ops[0], identity), ops[1..], identity)
  }

  lemma NextTakes(s: Service, op: Op, identity: string)
    requires Ready(s) && s.v3.Some?
    ensures Next(s, op).v3.Some?
    ensures TakesV3(Next(s, op), identity) == Wants(TakesV3(s, identity), op, identity)
  {
  }

  /** The tier of the next addition of a key is the one its requests asked for. */
  lemma {:induction false} TakesAsked(s: Service, ops: seq<Op>, q: Service, identity: string)
    requires Reach(s, ops, q)
    ensures q.v3.Some? == s.v3.Some?
    ensures TakesV3(q, identity) <==> q.v3.Some? && WantsAfter(TakesV3(s, identity), ops, identity)
    decreases |ops|
  {
    if ops != [] {
      TakesAsked(Next(s, ops[0]), ops[1..], q, identity);
      if s.v3.Some? {
        NextTakes(s, ops[0], identity);
      }
    }
  }

  /**
   Whenever the settings yield tunnel networks, after any sequence of
   requests, additions and removals with tools failing at will: the handshake
   answers a newly added peer with the entry of the tier its requests asked
   for, which is the tier it was added to, and the peer never gets an address
   of that tier's interface.
   */
  lemma PayloadMatchesTier(
    def: Tier, v3: Option<Tier>, ipv6: bool, ops: seq<Op>, q: Service, identity: string, toolFails: bool)
    requires TunnelNetworks(def, v3).Ok?
    requires Reach(NewService(TunnelNetworks(def, v3).value, ipv6), ops, q)
    ensures Ready(q) && Separate(q, TunnelNetworks(def, v3).value)
    ensures var a := AddTo(q, identity, toolFails);
            var nets := TunnelNetworks(def, v3).value;
            var wants := v3.Some? && WantsAfter(false, ops, identity);
            a.result.Added? ==>
              && (a.service.v3.Some? ==> ValidNet(a.service.v3.value.v4.net))
              && (PayloadV3(a.service, a.result.peer.v4 + a.result.peer.v6) <==> wants)
              && NotInterface(TierOf(q, wants), NetsOf(nets, wants), a.result.peer)
  {
    var nets := TunnelNetworks(def, v3).value;
    NewServiceSeparate(def, v3, ipv6);
    AlwaysSeparate(NewService(nets, ipv6), nets, ops, q);
    PayloadOfTier(q, nets, identity, toolFails);
    TakesAsked(NewService(nets, ipv6), ops, q, identity);
  }

  function PeersOf(s: Service): set<string> {
    s.def.peers.Keys + (if s.v3.Some? then s.v3.value.peers.Keys else {})
  }

  predicate InBoth(s: Service, identity: string) {
    identity in s.def.peers && s.v3.Some? && identity in s.v3.value.peers
  }

  /**
   Removing a key leaves every other peer, and leaves the key exactly when
   both tiers had it or it is the empty one, which is never found.
   */
  lemma RemovedFromItsTier(s: Service, identity: string)
    ensures var after := PeersOf(RemoveFrom(s, identity, false));
            && (forall k :: k != identity ==> (k in after <==> k in PeersOf(s)))
            && (identity in after <==> InBoth(s, identity) || (identity == "" && identity in PeersOf(s)))
  {
  }

  /** The operations lead from s to q, adding only keys neither tier holds at the time. */
  ghost predicate ReachNew(s: Service, ops: seq<Op>, q: Service)
    decreases |ops|
  {
    if ops == [] then s == q
    else
      && Ready(s) && (ops[0].Add? ==> ops[0].identity !in PeersOf(s))
      && ReachNew(Next(s, ops[0]), ops[1..], q)
  }

  lemma NextOneTier(s: Service, op: Op)
    requires Ready(s) && (forall k :: !InBoth(s, k)) && (op.Add? ==> op.identity !in PeersOf(s))
    ensures forall k :: !InBoth(Next(s, op), k)
  {
    if !op.Ask? {
      var step := if op.Add? then WireGuard.Op.Add(op.identity, op.toolFails)
                  else WireGuard.Op.Remove(op.identity, op.toolFails);
      StepKeys(s.def, step);
      if s.v3.Some? {
        StepKeys(s.v3.value, step);
      }
    }
    forall k ensures !InBoth(Next(s, op), k) {
      assert !InBoth(s, k);
    }
  }

  lemma StepKeys(t: Tunnel, op: WireGuard.Op)
    requires Usable(t)
    ensures WireGuard.Step(t, op).peers.Keys <= t.peers.Keys + (if op.Add? then {op.identity} else {})
  {
  }

  /** Over every such run a key is in one tier at most, so removing a peer always removes it. */
  lemma {:induction false} AlwaysOneTier(s: Service, ops: seq<Op>, q: Service, identity: string)
    requires ReachNew(s, ops, q) && (forall k :: !InBoth(s, k)) && identity != ""
    ensures !InBoth(q, identity) && identity !in PeersOf(RemoveFrom(q, identity, false))
    decreases |ops|
  {
    if ops == [] {
      RemovedFromItsTier(q, identity);
    } else {
      NextOneTier(s, ops[0]);
      AlwaysOneTier(Next(s, ops[0]), ops[1..], q, identity);
    }
  }

  // ---- the move aside ----

  /** A /24 network is its first three bytes. */
  lemma SlashTwentyFour(net: Net, ip: IP)
    requires ValidNet(net) && |net.base| == 4 && net.ones == 24 && |ip| == 4
    ensures Contains(net, ip) <==> ip[..3] == net.base[..3]
  {
    assert Pow2(4) == 16 && Pow2(8) == 256;
    LastByte(ip);
    LastByte(net.base);
    SamePrefix(ip, ip[..3], 3);
    SamePrefix(net.base, net.base[..3], 3);
    if ValueOf(ip, 3) == ValueOf(net.base, 3) {
      ValueInjective(ip, net.base, 3);
    }
  }

  /**
   Two derived IPv4 networks never end up overlapping: one that meets the
   other moves to the next /24, wrapping at the end of the byte.
   */
  lemma MoveAside(def: seq<Byte>, v3: seq<Byte>)
    requires |def| == 32 && |v3| == 32
    ensures var a, b := DeriveNetworks(def).v4, DeriveNetworks(v3).v4;
            Overlap(a, b) ==> !Overlap(a, NextNet(b))
  {
    var a, b := DeriveNetworks(def).v4, DeriveNetworks(v3).v4;
    var c := NextNet(b);
    SlashTwentyFour(a, b.base);
    SlashTwentyFour(b, a.base);
    SlashTwentyFour(a, c.base);
    SlashTwentyFour(c, a.base);
    assert a.base[..3][2] == a.base[2] && b.base[..3][2] == b.base[2] && c.base[..3][2] == c.base[2];
  }

  // ---- in place ----

  class Tiers {
    const def: WireGuard.Service
    const v3: WireGuard.Service
    const v3On: bool
    var asked: map<string, int>

    constructor (def: WireGuard.Service, v3: WireGuard.Service, v3On: bool)
      ensures this.def == def && this.v3 == v3 && this.v3On == v3On && asked == map[]
    {
      this.def, this.v3, this.v3On := def, v3, v3On;
      asked := map[];
    }

    ghost function Footprint(): set<object> {
      {this, def, def.v4, def.v6, v3, v3.v4, v3.v6}
    }

    /** The tiers and their pools are objects of their own. */
    ghost predicate Apart() {
      && def != v3 && def.v4 != def.v6 && v3.v4 != v3.v6
      && def.v4 != v3.v4 && def.v4 != v3.v6 && def.v6 != v3.v4 && def.v6 != v3.v6
    }

    ghost function View(): Service
      reads Footprint()
    {
      Service(def.View(), if v3On then Some(v3.View()) else None, asked)
    }

    method ParsePeerRequest(identity: string, version: Option<int>) returns (ok: bool)
      modifies this
      ensures View() == AskFor(old(View()), identity, version)
      ensures ok <==> version.None? || version.value == VERSION_DEFAULT || (version.value == VERSION_3 && v3On)
    {
      var tier := if version.Some? then version.value else VERSION_DEFAULT;
      ok := tier == VERSION_DEFAULT || (tier == VERSION_3 && v3On);
      if ok {
        asked := asked[identity := tier];
      }
    }

    method Connect(identity: string, toolFails: bool) returns (result: AddResult)
      requires Apart() && Ready(View())
      modifies Footprint()
      ensures Added3(View(), result) == AddTo(old(View()), identity, toolFails)
    {
      var tier := if identity in asked then asked[identity] else VERSION_DEFAULT;
      asked := asked - {identity};
      if tier == VERSION_3 && v3On {
        result := v3.Connect(identity, toolFails);
      } else {
        result := def.Connect(identity, toolFails);
      }
    }

    method Disconnect(identity: string, toolFails: bool)
      requires Apart()
      modifies Footprint()
      ensures View() == RemoveFrom(old(View()), identity, toolFails)
    {
      if v3On && identity != "" && identity in v3.peers {
        v3.Disconnect(identity, toolFails);
      } else {
        def.Disconnect(identity, toolFails);
      }
    }
  }
}
