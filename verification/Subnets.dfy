/**
 Which tunnel networks the AmneziaWG tiers get: what their keys give them,
 which settings are accepted, and when both tiers can be served.
 */
module Subnets {
  import opened Basics
  import opened Addresses
  import opened Networks
  import opened Amnezia

  // ---- networks from a key ----

  /** A 10.x.y.0/24 with x from 11 to 250, and a /120 under fd with a 40-bit id and nothing else. */
  predicate DerivedShape(n: TierNets) {
    && n.v4.ones == 24 && |n.v4.base| == 4
    && n.v4.base[0] == 10 && 11 <= n.v4.base[1] <= 250 && n.v4.base[3] == 0
    && n.v6.ones == 120 && |n.v6.base| == 16
    && n.v6.base[0] == 0xfd && forall i :: 6 <= i < 16 ==> n.v6.base[i] == 0
  }

  /** What of a digest the networks depend on. */
  predicate Alike(a: seq<Byte>, b: seq<Byte>)
    requires |a| == |b| == 32
  {
    (a[0] as int - b[0] as int) % 240 == 0 && forall i :: 1 <= i < 7 ==> a[i] == b[i]
  }

  lemma DerivedBytes(digest: seq<Byte>)
    requires |digest| == 32
    ensures var n := DeriveNetworks(digest);
            && DerivedShape(n)
            && n.v4.base[1] == 11 + (if digest[0] < 240 then digest[0] else digest[0] - 240)
            && n.v4.base[2] == digest[1]
            && forall i :: 1 <= i < 6 ==> n.v6.base[i] == digest[i + 1]
  {
    var n := DeriveNetworks(digest);
    forall i | 1 <= i < 6 ensures n.v6.base[i] == digest[i + 1] {
      assert n.v6.base[i] == digest[2..7][i - 1];
    }
  }

  /** Two keys give the same networks exactly when their digests agree in seven bytes, the first up to 240. */
  lemma DerivedSameIff(a: seq<Byte>, b: seq<Byte>)
    requires |a| == 32 && |b| == 32
    ensures DeriveNetworks(a) == DeriveNetworks(b) <==> Alike(a, b)
  {
    DerivedBytes(a);
    DerivedBytes(b);
    var m, n := DeriveNetworks(a), DeriveNetworks(b);
    if m == n {
      forall i | 1 <= i < 7 ensures a[i] == b[i] {
        assert i >= 2 ==> m.v6.base[i - 1] == n.v6.base[i - 1];
      }
    }
    if Alike(a, b) {
      assert m.v4.base == n.v4.base;
      assert m.v6.base == n.v6.base;
    }
  }

  // ---- networks from the settings ----

  const TEN := Net([10, 0, 0, 0], 8)
  const ONE_SEVEN_TWO := Net([172, 16, 0, 0], 12)
  const ONE_NINE_TWO := Net([192, 168, 0, 0], 16)
  const UNIQUE_LOCAL := Net([0xfc, 0, 0, 0, 0, 0, 0, 0, 0, 0, 0, 0, 0, 0, 0, 0], 7)

  /** An address is private exactly in 10/8, 172.16/12, 192.168/16 and fc00::/7. */
  lemma PrivateMeans(ip: IP)
    ensures |ip| == 4 ==>
      (IsPrivate(ip) <==> Contains(TEN, ip) || Contains(ONE_SEVEN_TWO, ip) || Contains(ONE_NINE_TWO, ip))
    ensures |ip| == 16 ==> (IsPrivate(ip) <==> Contains(UNIQUE_LOCAL, ip))
    ensures |ip| != 4 && |ip| != 16 ==> !IsPrivate(ip)
  {
    assert Pow2(0) == 1 && Pow2(1) == 2 && Pow2(4) == 16 && Pow2(8) == 256;
    if |ip| == 4 {
      ContainsInByte(TEN, ip, 0, 8, 1, 10);
      ContainsInByte(ONE_SEVEN_TWO, ip, 1, 4, 16, 1);
      ContainsInByte(ONE_NINE_TWO, ip, 1, 8, 1, 168);
    }
    if |ip| == 16 {
      ContainsInByte(UNIQUE_LOCAL, ip, 0, 7, 2, 126);
    }
  }

  /** The setting names a private network of its family with room for peers, but not too much. */
  ghost predicate Acceptable(s: Setting, v6: bool) {
    && s.Cidr?
    && (if v6 then |s.ip| == 16 && 64 <= s.ones <= 124 else |s.ip| == 4 && 16 <= s.ones <= 28)
    && (if v6 then Contains(UNIQUE_LOCAL, s.ip)
        else Contains(TEN, s.ip) || Contains(ONE_SEVEN_TWO, s.ip) || Contains(ONE_NINE_TWO, s.ip))
  }

  /** A setting is accepted exactly then, as the network of the address it names. */
  lemma ParsedIff(s: Setting, v6: bool)
    ensures ParseSubnet(s, v6).Ok? <==> Acceptable(s, v6)
    ensures ParseSubnet(s, v6).Ok? ==>
      var net := ParseSubnet(s, v6).value;
      && ValidNet(net) && ValidNet(Net(s.ip, s.ones)) && net.ones == s.ones
      && Low(net) == Value(net.base) == Low(Net(s.ip, s.ones))
      && forall a :: Contains(net, a) <==> Contains(Net(s.ip, s.ones), a)
  {
    if s.Cidr? {
      PrivateMeans(s.ip);
    }
    if ParseSubnet(s, v6).Ok? {
      ParsedNetwork(s, v6);
    }
  }

  lemma ParsedNetwork(s: Setting, v6: bool)
    requires ParseSubnet(s, v6).Ok?
    ensures var net := ParseSubnet(s, v6).value;
      && ValidNet(net) && ValidNet(Net(s.ip, s.ones)) && net.ones == s.ones
      && Low(net) == Value(net.base) == Low(Net(s.ip, s.ones))
      && forall a :: Contains(net, a) <==> Contains(Net(s.ip, s.ones), a)
  {
    var given, net := Net(s.ip, s.ones), ParseSubnet(s, v6).value;
    var v := Masked(Value(s.ip), Size(given));
    ValueBound(s.ip, |s.ip|);
    MaskedBounds(Value(s.ip), 0, Size(given));
    BytesValue(v, |s.ip|);
    assert Value(net.base) == v && Size(net) == Size(given);
  }

  /** A tier has networks exactly when its key is valid and its settings are empty or acceptable. */
  lemma TierNetworksIff(t: Tier)
    ensures TierNetworks(t).Ok? <==>
      && t.digest.Some? && |t.digest.value| == 32
      && (t.ipv4.Unset? || Acceptable(t.ipv4, false)) && (t.ipv6.Unset? || Acceptable(t.ipv6, true))
    ensures TierNetworks(t).Ok? ==>
      var n := TierNetworks(t).value;
      && (t.ipv4.Unset? ==> n.v4 == DeriveNetworks(t.digest.value).v4)
      && (t.ipv6.Unset? ==> n.v6 == DeriveNetworks(t.digest.value).v6)
      && (!t.ipv4.Unset? ==> ParseSubnet(t.ipv4, false) == Ok(n.v4))
      && (!t.ipv6.Unset? ==> ParseSubnet(t.ipv6, true) == Ok(n.v6))
  {
    ParsedIff(t.ipv4, false);
    ParsedIff(t.ipv6, true);
  }

  // ---- both tiers ----

  /** The /24 behind another, the last of a 10.x wrapping to its first. */
  predicate IsNext(net: Net, next: Net) {
    && |net.base| == 4 && |next.base| == 4 && next.ones == net.ones
    && next.base[0] == net.base[0] && next.base[1] == net.base[1] && next.base[3] == 0
    && (if net.base[2] == 255 then next.base[2] == 0 else next.base[2] == net.base[2] + 1)
  }

  lemma NextNetMeans(net: Net)
    requires |net.base| == 4
    ensures IsNext(net, NextNet(net))
  {
  }

  /** Where the second tier's IPv4 network ends up: moved aside only when derived and meeting the first's. */
  ghost predicate MovedTo(d: TierNets, w: TierNets, derived: bool, v4: Net)
    requires ValidNet(d.v4) && ValidNet(w.v4)
  {
    if derived && !Disjoint(d.v4, w.v4) then IsNext(w.v4, v4) else v4 == w.v4
  }

  /**
   Both tiers are served exactly when each has networks and, with a derived
   second IPv4 network moved aside if it meets the first's, they share no
   address of either family.
   */
  lemma TunnelNetworksIff(def: Tier, v3: Tier, v4: Net)
    requires TierNetworks(def).Ok? && TierNetworks(v3).Ok?
    ensures ValidNets(TierNetworks(def).value) && ValidNets(TierNetworks(v3).value)
    ensures var d, w := TierNetworks(def).value, TierNetworks(v3).value;
            var r := TunnelNetworks(def, Some(v3));
            MovedTo(d, w, v3.ipv4.Unset?, v4) && ValidNet(v4) ==>
              && (r.Ok? <==> Disjoint(d.v4, v4) && Disjoint(d.v6, w.v6))
              && (r.Ok? ==> r.value == Both(d, Some(TierNets(v4, w.v6))))
  {
    TiersValid(def);
    TiersValid(v3);
    var d, w := TierNetworks(def).value, TierNetworks(v3).value;
    OverlapIsExact(d.v4, w.v4);
    OverlapIsExact(d.v6, w.v6);
    NextNetMeans(w.v4);
    if MovedTo(d, w, v3.ipv4.Unset?, v4) && ValidNet(v4) {
      OverlapIsExact(d.v4, v4);
      assert v4 == w.v4 || v4.base == NextNet(w.v4).base;
    }
  }

  /** Without networks for a tier there are none at all; one tier alone is served as it is. */
  lemma TunnelNetworksElse(def: Tier, v3: Tier)
    ensures TunnelNetworks(def, None) ==
      if TierNetworks(def).Ok? then Ok(Both(TierNetworks(def).value, None)) else Err
    ensures TierNetworks(def).Err? || TierNetworks(v3).Err? ==> TunnelNetworks(def, Some(v3)).Err?
  {
  }
}
