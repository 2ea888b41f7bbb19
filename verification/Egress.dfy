/**
 The node's egress policy compiled to firewall rules: for the clients of a
 tunnel interface, and for the account the proxies run under.
 */
module Egress {
  import opened Basics
  import opened Addresses
  import opened Networks
  import opened Firewall
  import opened OwnChains

  const SMTP_PORT := 25
  const DNS_PORT := 53

  /** One iptables binary with the blocked networks of its address family. */
  datatype Family = Family(tool: string, v6: bool, blocked: seq<Net>)

  /** apiPort 0 opens no API port; resolver is set when the node runs one. */
  datatype Policy = Policy(allowSMTP: bool, apiPort: nat, resolver: Option<IP>)

  const BLOCKED_V4: seq<Net> := [
    Net([0, 0, 0, 0], 8),
    Net([10, 0, 0, 0], 8),
    Net([100, 64, 0, 0], 10),
    Net([127, 0, 0, 0], 8),
    Net([169, 254, 0, 0], 16),
    Net([172, 16, 0, 0], 12),
    Net([192, 0, 0, 0], 24),
    Net([192, 168, 0, 0], 16),
    Net([198, 18, 0, 0], 15),
    Net([224, 0, 0, 0], 4),
    Net([240, 0, 0, 0], 4)]

  const BLOCKED_V6: seq<Net> := [
    Net([0, 0, 0, 0, 0, 0, 0, 0, 0, 0, 0, 0, 0, 0, 0, 0], 128),
    Net([0, 0, 0, 0, 0, 0, 0, 0, 0, 0, 0, 0, 0, 0, 0, 1], 128),
    Net([0xfc, 0, 0, 0, 0, 0, 0, 0, 0, 0, 0, 0, 0, 0, 0, 0], 7),
    Net([0xfe, 0x80, 0, 0, 0, 0, 0, 0, 0, 0, 0, 0, 0, 0, 0, 0], 10),
    Net([0xff, 0, 0, 0, 0, 0, 0, 0, 0, 0, 0, 0, 0, 0, 0, 0], 8)]

  function Families(ipv6Present: bool): seq<Family> {
    [Family("iptables", false, BLOCKED_V4)] + (if ipv6Present then [Family("ip6tables", true, BLOCKED_V6)] else [])
  }

  predicate InFamily(f: Family, ip: IP) { |ip| == if f.v6 then 16 else 4 }

  /** Every IPv4 address has its rules, and every IPv6 address exactly when the kernel has IPv6. */
  lemma FamiliesCover(ipv6Present: bool, ip: IP)
    ensures (exists f :: f in Families(ipv6Present) && InFamily(f, ip)) <==>
      |ip| == 4 || (|ip| == 16 && ipv6Present)
    ensures forall f :: f in Families(ipv6Present) ==> f.tool == if f.v6 then "ip6tables" else "iptables"
  {
    var fs := Families(ipv6Present);
    assert fs[0] in fs && (ipv6Present ==> fs[1] in fs);
  }

  /** The network of one address. */
  function HostNet(ip: IP): Net { Net(ip, 8 * |ip|) }

  // ---- rules ----

  function BlockRules(nets: seq<Net>, target: Target): (rules: seq<Rule>)
    ensures forall r :: r in rules ==> r.target == target
  {
    if nets == [] then [] else [Rule([To(nets[0])], target)] + BlockRules(nets[1..], target)
  }

  function SmtpRules(policy: Policy, target: Target): (rules: seq<Rule>)
    ensures forall r :: r in rules ==> r.target == target
  {
    if policy.allowSMTP then [] else [Rule([Protocol("tcp"), Port(SMTP_PORT)], target)]
  }

  function ForwardRules(iface: string, f: Family, policy: Policy): (rules: seq<Rule>)
    ensures forall r :: r in rules ==> r.target == Drop
  {
    [Rule([Out(iface)], Drop)] + BlockRules(f.blocked, Drop) + SmtpRules(policy, Drop)
  }

  function ResolverRules(f: Family, resolver: Option<IP>): (rules: seq<Rule>)
    ensures forall r :: r in rules ==> r.target == Accept
  {
    if resolver.Some? && InFamily(f, resolver.value) then
      [Rule([To(HostNet(resolver.value)), Protocol("udp"), Port(DNS_PORT)], Accept),
       Rule([To(HostNet(resolver.value)), Protocol("tcp"), Port(DNS_PORT)], Accept)]
    else []
  }

  function InputRules(f: Family, policy: Policy): (rules: seq<Rule>)
    ensures forall r :: r in rules ==> r.target == Accept || r.target == Drop
  {
    [Rule([Ongoing], Accept)] + ResolverRules(f, policy.resolver)
    + (if policy.apiPort != 0 then [Rule([Protocol("tcp"), Port(policy.apiPort)], Accept)] else [])
    + [Rule([], Drop)]
  }

  const LOOPBACK: IP := [127, 0, 0, 1]

  function LoopbackRule(port: nat): Rule {
    Rule([Out("lo"), To(HostNet(LOOPBACK)), Protocol("tcp"), Port(port)], Accept)
  }

  function LoopbackRules(ports: seq<nat>): (rules: seq<Rule>)
    ensures forall r :: r in rules ==> r.target == Accept
  {
    if ports == [] then []
    else [LoopbackRule(ports[0])] + LoopbackRules(ports[1..])
  }

  function DnsRule(ip: IP, protocol: string): Rule {
    Rule([Protocol(protocol), AskedFor(ip), AskedForPort(DNS_PORT)], Accept)
  }

  function DnsRules(f: Family, resolvers: seq<IP>): (rules: seq<Rule>)
    ensures forall r :: r in rules ==> r.target == Accept
  {
    if resolvers == [] then []
    else
      var ip := resolvers[0];
      (if InFamily(f, ip) then [DnsRule(ip, "udp"), DnsRule(ip, "tcp")] else []) + DnsRules(f, resolvers[1..])
  }

  /** What the proxy chain lets through before it blocks anything. */
  function ExceptionRules(f: Family, loopbackPorts: seq<nat>, resolvers: seq<IP>): (rules: seq<Rule>)
    ensures forall r :: r in rules ==> r.target == Accept
  {
    (if f.v6 then [] else LoopbackRules(loopbackPorts)) + DnsRules(f, resolvers)
  }

  /** What it decides about the host's own addresses. */
  function LocalRules(policy: Policy): (rules: seq<Rule>)
    ensures forall r :: r in rules ==> r.target == Accept || r.target == Reject
  {
    (if policy.apiPort != 0 then [Rule([Local, Protocol("tcp"), Port(policy.apiPort)], Accept)] else [])
    + [Rule([Local], Reject)]
  }

  function ProxyRules(f: Family, policy: Policy, loopbackPorts: seq<nat>, resolvers: seq<IP>): (rules: seq<Rule>)
    ensures forall r :: r in rules ==> r.target == Accept || r.target == Reject
  {
    [Rule([Ongoing], Accept)] + ExceptionRules(f, loopbackPorts, resolvers)
    + BlockRules(f.blocked, Reject) + LocalRules(policy) + SmtpRules(policy, Reject)
  }

  // ---- the policy the rules are to carry out ----

  predicate InOne(nets: seq<Net>, ip: IP) {
    exists n :: n in nets && ValidNet(n) && Contains(n, ip)
  }

  predicate Blocked(f: Family, p: Packet) { InOne(f.blocked, p.dst) }

  predicate Smtp(policy: Policy, p: Packet) { !policy.allowSMTP && p.protocol == "tcp" && p.port == SMTP_PORT }

  predicate ToResolver(f: Family, policy: Policy, p: Packet) {
    && policy.resolver.Some? && InFamily(f, policy.resolver.value) && p.dst == policy.resolver.value
    && (p.protocol == "udp" || p.protocol == "tcp") && p.port == DNS_PORT
  }

  predicate ToApi(policy: Policy, p: Packet) {
    policy.apiPort != 0 && p.protocol == "tcp" && p.port == policy.apiPort
  }

  /** DNS to one of the host's resolvers, or a declared port on loopback. */
  predicate Exempt(f: Family, loopbackPorts: seq<nat>, resolvers: seq<IP>, p: Packet) {
    || (!f.v6 && p.outIface == "lo" && p.dst == LOOPBACK && p.protocol == "tcp" && p.port in loopbackPorts)
    || (p.origDst in resolvers && InFamily(f, p.origDst) && p.origPort == DNS_PORT
        && (p.protocol == "udp" || p.protocol == "tcp"))
  }

  lemma HostNetIsHost(ip: IP, dst: IP)
    requires ip != []
    ensures ValidNet(HostNet(ip)) && (Contains(HostNet(ip), dst) <==> dst == ip)
  {
    assert Size(HostNet(ip)) == 1;
    if |dst| == |ip| && Value(dst) == Value(ip) {
      ValueInjective(dst, ip, |ip|);
    }
  }

  lemma DecideOne(r: Rule, p: Packet)
    ensures Decide([r], p) == if Applies(r, p) then Some(r.target) else None
  {
  }

  lemma {:induction false} DecideNets(nets: seq<Net>, target: Target, p: Packet)
    ensures Decide(BlockRules(nets, target), p) ==
      if exists n :: n in nets && ValidNet(n) && Contains(n, p.dst) then Some(target) else None
  {
    if nets != [] {
      assert BlockRules(nets, target)[1..] == BlockRules(nets[1..], target);
      assert To(nets[0]) in [To(nets[0])];
      assert forall n :: n in nets <==> n == nets[0] || n in nets[1..];
      DecideNets(nets[1..], target, p);
    }
  }

  lemma DecideBlocked(f: Family, target: Target, p: Packet)
    ensures Decide(BlockRules(f.blocked, target), p) == if Blocked(f, p) then Some(target) else None
  {
    DecideNets(f.blocked, target, p);
  }

  lemma AppliesTwo(a: Match, b: Match, target: Target, p: Packet)
    ensures Applies(Rule([a, b], target), p) <==> Meets(p, a) && Meets(p, b)
  {
  }

  lemma AppliesThree(a: Match, b: Match, c: Match, target: Target, p: Packet)
    ensures Applies(Rule([a, b, c], target), p) <==> Meets(p, a) && Meets(p, b) && Meets(p, c)
  {
  }

  lemma AppliesFour(a: Match, b: Match, c: Match, d: Match, target: Target, p: Packet)
    ensures Applies(Rule([a, b, c, d], target), p) <==> Meets(p, a) && Meets(p, b) && Meets(p, c) && Meets(p, d)
  {
  }

  lemma DecideSmtp(policy: Policy, target: Target, p: Packet)
    ensures Decide(SmtpRules(policy, target), p) == if Smtp(policy, p) then Some(target) else None
  {
    AppliesTwo(Protocol("tcp"), Port(SMTP_PORT), target, p);
    DecideOne(Rule([Protocol("tcp"), Port(SMTP_PORT)], target), p);
  }

  /**
   The forward chain drops exactly what goes back into the tunnel, to a
   blocked network, or to a mail relay that is not allowed.
   */
  lemma ForwardPolicy(iface: string, f: Family, policy: Policy, p: Packet)
    ensures Decide(ForwardRules(iface, f, policy), p) ==
      if p.outIface == iface || Blocked(f, p) || Smtp(policy, p) then Some(Drop) else None
  {
    var back := Rule([Out(iface)], Drop);
    assert Out(iface) in back.matches;
    DecideOne(back, p);
    DecideBlocked(f, Drop, p);
    DecideSmtp(policy, Drop, p);
    DecideAppend([back], BlockRules(f.blocked, Drop), p);
    DecideAppend([back] + BlockRules(f.blocked, Drop), SmtpRules(policy, Drop), p);
  }

  lemma DecideResolver(f: Family, policy: Policy, p: Packet)
    ensures Decide(ResolverRules(f, policy.resolver), p) == if ToResolver(f, policy, p) then Some(Accept) else None
  {
    if policy.resolver.Some? && InFamily(f, policy.resolver.value) {
      var ip := policy.resolver.value;
      HostNetIsHost(ip, p.dst);
      AppliesThree(To(HostNet(ip)), Protocol("udp"), Port(DNS_PORT), Accept, p);
      AppliesThree(To(HostNet(ip)), Protocol("tcp"), Port(DNS_PORT), Accept, p);
      var udp := Rule([To(HostNet(ip)), Protocol("udp"), Port(DNS_PORT)], Accept);
      var tcp := Rule([To(HostNet(ip)), Protocol("tcp"), Port(DNS_PORT)], Accept);
      assert ResolverRules(f, policy.resolver)[1..] == [tcp];
      DecideOne(tcp, p);
    }
  }

  /** The input chain accepts replies, DNS to the resolver and the API port, and drops all else. */
  lemma InputPolicy(f: Family, policy: Policy, p: Packet)
    ensures Decide(InputRules(f, policy), p) ==
      Some(if p.ongoing || ToResolver(f, policy, p) || ToApi(policy, p) then Accept else Drop)
  {
    var ongoing, all := Rule([Ongoing], Accept), Rule([], Drop);
    var api := if policy.apiPort != 0 then [Rule([Protocol("tcp"), Port(policy.apiPort)], Accept)] else [];
    assert Ongoing in ongoing.matches;
    DecideOne(ongoing, p);
    DecideOne(all, p);
    AppliesTwo(Protocol("tcp"), Port(policy.apiPort), Accept, p);
    DecideOne(Rule([Protocol("tcp"), Port(policy.apiPort)], Accept), p);
    DecideResolver(f, policy, p);
    var front := [ongoing] + ResolverRules(f, policy.resolver);
    DecideAppend([ongoing], ResolverRules(f, policy.resolver), p);
    DecideAppend(front, api, p);
    DecideAppend(front + api, [all], p);
  }

  lemma LoopbackApplies(port: nat, p: Packet)
    ensures Applies(LoopbackRule(port), p) <==>
      p.outIface == "lo" && p.dst == LOOPBACK && p.protocol == "tcp" && p.port == port
  {
    HostNetIsHost(LOOPBACK, p.dst);
    AppliesFour(Out("lo"), To(HostNet(LOOPBACK)), Protocol("tcp"), Port(port), Accept, p);
  }

  lemma {:induction false} DecideLoopback(ports: seq<nat>, p: Packet)
    ensures Decide(LoopbackRules(ports), p) ==
      if p.outIface == "lo" && p.dst == LOOPBACK && p.protocol == "tcp" && p.port in ports then Some(Accept) else None
  {
    if ports != [] {
      LoopbackApplies(ports[0], p);
      assert LoopbackRules(ports)[1..] == LoopbackRules(ports[1..]);
      DecideLoopback(ports[1..], p);
    }
  }

  lemma {:induction false} DecideDns(f: Family, resolvers: seq<IP>, p: Packet)
    ensures Decide(DnsRules(f, resolvers), p) ==
      if p.origDst in resolvers && InFamily(f, p.origDst) && p.origPort == DNS_PORT
         && (p.protocol == "udp" || p.protocol == "tcp") then Some(Accept) else None
  {
    if resolvers != [] {
      var ip := resolvers[0];
      var udp, tcp := DnsRule(ip, "udp"), DnsRule(ip, "tcp");
      AppliesThree(Protocol("udp"), AskedFor(ip), AskedForPort(DNS_PORT), Accept, p);
      AppliesThree(Protocol("tcp"), AskedFor(ip), AskedForPort(DNS_PORT), Accept, p);
      DecideOne(udp, p);
      DecideOne(tcp, p);
      assert [udp, tcp] == [udp] + [tcp];
      DecideAppend([udp], [tcp], p);
      DecideAppend(if InFamily(f, ip) then [udp, tcp] else [], DnsRules(f, resolvers[1..]), p);
      DecideDns(f, resolvers[1..], p);
    }
  }

  lemma DecideExceptions(f: Family, loopbackPorts: seq<nat>, resolvers: seq<IP>, p: Packet)
    ensures Decide(ExceptionRules(f, loopbackPorts, resolvers), p) ==
      if Exempt(f, loopbackPorts, resolvers, p) then Some(Accept) else None
  {
    DecideLoopback(loopbackPorts, p);
    DecideDns(f, resolvers, p);
    DecideAppend(if f.v6 then [] else LoopbackRules(loopbackPorts), DnsRules(f, resolvers), p);
  }

  lemma DecideLocal(policy: Policy, p: Packet)
    ensures Decide(LocalRules(policy), p) ==
      if p.local then Some(if ToApi(policy, p) then Accept else Reject) else None
  {
    var api := if policy.apiPort != 0 then [Rule([Local, Protocol("tcp"), Port(policy.apiPort)], Accept)] else [];
    var local := Rule([Local], Reject);
    AppliesThree(Local, Protocol("tcp"), Port(policy.apiPort), Accept, p);
    DecideOne(Rule([Local, Protocol("tcp"), Port(policy.apiPort)], Accept), p);
    assert Local in local.matches;
    DecideOne(local, p);
    DecideAppend(api, [local], p);
  }

  /** The proxy chain's decision on every packet. */
  lemma ProxyPolicy(f: Family, policy: Policy, loopbackPorts: seq<nat>, resolvers: seq<IP>, p: Packet)
    ensures Decide(ProxyRules(f, policy, loopbackPorts, resolvers), p) ==
      if p.ongoing || Exempt(f, loopbackPorts, resolvers, p) then Some(Accept)
      else if Blocked(f, p) then Some(Reject)
      else if p.local then Some(if ToApi(policy, p) then Accept else Reject)
      else if Smtp(policy, p) then Some(Reject)
      else None
  {
    var ongoing, exceptions := Rule([Ongoing], Accept), ExceptionRules(f, loopbackPorts, resolvers);
    var blocks, locals := BlockRules(f.blocked, Reject), LocalRules(policy);
    assert Ongoing in ongoing.matches;
    DecideOne(ongoing, p);
    DecideExceptions(f, loopbackPorts, resolvers, p);
    DecideBlocked(f, Reject, p);
    DecideLocal(policy, p);
    DecideSmtp(policy, Reject, p);
    DecideAppend([ongoing], exceptions, p);
    DecideAppend([ongoing] + exceptions, blocks, p);
    DecideAppend([ongoing] + exceptions + blocks, locals, p);
    DecideAppend([ongoing] + exceptions + blocks + locals, SmtpRules(policy, Reject), p);
  }

  /** The proxies never get a new connection into a blocked network accepted, but for the exceptions. */
  lemma ProxyNeverIntoBlocked(f: Family, policy: Policy, loopbackPorts: seq<nat>, resolvers: seq<IP>, p: Packet)
    requires Blocked(f, p) && !p.ongoing && !Exempt(f, loopbackPorts, resolvers, p)
    ensures Decide(ProxyRules(f, policy, loopbackPorts, resolvers), p) == Some(Reject)
  {
    ProxyPolicy(f, policy, loopbackPorts, resolvers, p);
  }

  /**
   The two protocols' rules agree: a new packet to an address that is not the
   host's, outside the proxy's exceptions and not back into the tunnel, is
   refused by one exactly when it is refused by the other.
   */
  lemma PoliciesAgree(
    iface: string, f: Family, policy: Policy, loopbackPorts: seq<nat>, resolvers: seq<IP>, p: Packet)
    requires !p.ongoing && !p.local && !Exempt(f, loopbackPorts, resolvers, p) && p.outIface != iface
    ensures Decide(ForwardRules(iface, f, policy), p) == Some(Drop)
      <==> Decide(ProxyRules(f, policy, loopbackPorts, resolvers), p) == Some(Reject)
    ensures Decide(ForwardRules(iface, f, policy), p) == None
      <==> Decide(ProxyRules(f, policy, loopbackPorts, resolvers), p) == None
  {
    ForwardPolicy(iface, f, policy, p);
    ProxyPolicy(f, policy, loopbackPorts, resolvers, p);
  }

  // ---- the chains that carry the rules ----

  function ForwardChain(iface: string): string { "DVPND-FWD-" + iface }

  function InputChain(iface: string): string { "DVPND-IN-" + iface }

  const PROXY_CHAIN := "DVPND-PROXY"

  /** Chain names fit the 28 characters iptables allows for any interface name, and tell interfaces apart. */
  lemma ChainNames(iface: string, other: string)
    requires |iface| <= 15
    ensures |ForwardChain(iface)| <= 28 && |InputChain(iface)| <= 28 && |PROXY_CHAIN| <= 28
    ensures iface != other ==>
      ForwardChain(iface) != ForwardChain(other) && InputChain(iface) != InputChain(other)
    ensures ForwardChain(iface) != InputChain(other)
  {
    assert ForwardChain(iface)[10..] == iface && ForwardChain(other)[10..] == other;
    assert InputChain(iface)[9..] == iface && InputChain(other)[9..] == other;
    assert ForwardChain(iface)[6] == 'F' && InputChain(other)[6] == 'I';
  }

  function Hooks(chain: string, rules: seq<Rule>): (hooks: seq<Hook>)
    ensures forall h :: h in hooks <==> h.builtin == chain && h.rule in rules
  {
    if rules == [] then [] else [Hook(chain, rules[0])] + Hooks(chain, rules[1..])
  }

  function TunnelChains(iface: string, f: Family, policy: Policy): Chains {
    var fwd, input := ForwardChain(iface), InputChain(iface);
    Chains([fwd, input],
           Hooks(fwd, ForwardRules(iface, f, policy)) + Hooks(input, InputRules(f, policy)),
           [Hook("FORWARD", Rule([In(iface)], Jump(fwd))), Hook("INPUT", Rule([In(iface)], Jump(input)))])
  }

  function ProxyChains(uid: nat, f: Family, policy: Policy, loopbackPorts: seq<nat>, resolvers: seq<IP>): Chains {
    Chains([PROXY_CHAIN],
           Hooks(PROXY_CHAIN, ProxyRules(f, policy, loopbackPorts, resolvers)),
           [Hook("OUTPUT", Rule([Owner(uid)], Jump(PROXY_CHAIN)))])
  }

  lemma {:induction false} RulesForHooks(chain: string, rules: seq<Rule>, other: string)
    ensures RulesFor(Hooks(chain, rules), other) == if chain == other then rules else []
  {
    if rules != [] {
      assert Hooks(chain, rules)[1..] == Hooks(chain, rules[1..]);
      RulesForHooks(chain, rules[1..], other);
    }
  }

  lemma {:induction false} RulesForAppend(a: seq<Hook>, b: seq<Hook>, chain: string)
    ensures RulesFor(a + b, chain) == RulesFor(a, chain) + RulesFor(b, chain)
  {
    if a == [] {
      assert a + b == b;
    } else {
      var first := if a[0].builtin == chain then [a[0].rule] else [];
      assert (a + b)[1..] == a[1..] + b;
      RulesForAppend(a[1..], b, chain);
      Regroup(first, RulesFor(a[1..], chain), RulesFor(b, chain));
    }
  }

  lemma TwoChainsRules(first: string, second: string, a: seq<Rule>, b: seq<Rule>)
    requires first != second
    ensures RulesFor(Hooks(first, a) + Hooks(second, b), first) == a
    ensures RulesFor(Hooks(first, a) + Hooks(second, b), second) == b
  {
    RulesForHooks(first, a, first);
    RulesForHooks(first, a, second);
    RulesForHooks(second, b, first);
    RulesForHooks(second, b, second);
    RulesForAppend(Hooks(first, a), Hooks(second, b), first);
    RulesForAppend(Hooks(first, a), Hooks(second, b), second);
  }

  /** Two chains filled with rules that jump nowhere, each jumped to from one built-in chain. */
  lemma TwoChains(first: string, second: string, rules: seq<Hook>, x: Hook, y: Hook)
    requires first != second
    requires forall h :: h in rules ==> (h.builtin == first || h.builtin == second) && !h.rule.target.Jump?
    requires x.rule.target == Jump(first) && y.rule.target == Jump(second)
    requires x.builtin != first && x.builtin != second && y.builtin != first && y.builtin != second
    ensures WellFormed(Chains([first, second], rules, [x, y]))
  {
  }

  lemma OneChain(name: string, a: seq<Rule>, x: Hook)
    requires forall r :: r in a ==> !r.target.Jump?
    requires x.rule.target == Jump(name) && x.builtin != name
    ensures var c := Chains([name], Hooks(name, a), [x]);
            WellFormed(c) && RulesFor(c.rules, name) == a
  {
  }

  lemma NamesApart(iface: string)
    ensures ForwardChain(iface) != InputChain(iface)
    ensures forall builtin :: builtin in ["FORWARD", "INPUT", "OUTPUT"] ==>
      builtin != ForwardChain(iface) && builtin != InputChain(iface) && builtin != PROXY_CHAIN
  {
  }

  lemma TunnelChainsWellFormed(iface: string, f: Family, policy: Policy)
    ensures WellFormed(TunnelChains(iface, f, policy))
    ensures RulesFor(TunnelChains(iface, f, policy).rules, ForwardChain(iface)) == ForwardRules(iface, f, policy)
    ensures RulesFor(TunnelChains(iface, f, policy).rules, InputChain(iface)) == InputRules(f, policy)
  {
    var fwd, input := ForwardChain(iface), InputChain(iface);
    NamesApart(iface);
    TwoChainsRules(fwd, input, ForwardRules(iface, f, policy), InputRules(f, policy));
    TwoChains(fwd, input, TunnelChains(iface, f, policy).rules,
              Hook("FORWARD", Rule([In(iface)], Jump(fwd))), Hook("INPUT", Rule([In(iface)], Jump(input))));
  }

  lemma ProxyChainsWellFormed(uid: nat, f: Family, policy: Policy, loopbackPorts: seq<nat>, resolvers: seq<IP>)
    ensures WellFormed(ProxyChains(uid, f, policy, loopbackPorts, resolvers))
    ensures RulesFor(ProxyChains(uid, f, policy, loopbackPorts, resolvers).rules, PROXY_CHAIN)
      == ProxyRules(f, policy, loopbackPorts, resolvers)
  {
    NamesApart("");
    OneChain(PROXY_CHAIN, ProxyRules(f, policy, loopbackPorts, resolvers),
             Hook("OUTPUT", Rule([Owner(uid)], Jump(PROXY_CHAIN))));
  }

  /**
   Whatever earlier runs left, after an up every packet sent through the
   tunnel's chains meets the policy.
   */
  lemma TunnelUpEnforces(t: Table, iface: string, f: Family, policy: Policy, p: Packet)
    requires Recoverable(t, TunnelChains(iface, f, policy))
    ensures var after := DoAll(t, Up(TunnelChains(iface, f, policy)));
            && ForwardChain(iface) in after && InputChain(iface) in after
            && (Decide(after[ForwardChain(iface)], p) == Some(Drop)
                <==> p.outIface == iface || Blocked(f, p) || Smtp(policy, p))
            && (Decide(after[InputChain(iface)], p) == Some(Accept)
                <==> p.ongoing || ToResolver(f, policy, p) || ToApi(policy, p))
  {
    var c := TunnelChains(iface, f, policy);
    TunnelChainsWellFormed(iface, f, policy);
    UpInstalls(t, c);
    ForwardPolicy(iface, f, policy, p);
    InputPolicy(f, policy, p);
    assert c.names[0] in c.names && c.names[1] in c.names;
  }

  /** On the way of an up the tunnel's packets meet complete chains exactly when no jump was there before. */
  lemma TunnelGuardedIff(t: Table, iface: string, f: Family, policy: Policy)
    ensures var c := TunnelChains(iface, f, policy);
            (forall k :: 1 <= k <= |Up(c)| ==> Guarded(DoAll(t, Up(c)[..k]), c)) <==> !Jumped(t, c.names)
  {
    var c := TunnelChains(iface, f, policy);
    TunnelChainsWellFormed(iface, f, policy);
    forall n | n in c.names ensures RulesFor(c.rules, n) != [] {
      assert n == ForwardChain(iface) || n == InputChain(iface);
    }
    GuardedIffNoJump(t, c);
  }

  lemma ProxyGuardedIff(t: Table, uid: nat, f: Family, policy: Policy, ports: seq<nat>, resolvers: seq<IP>)
    ensures var c := ProxyChains(uid, f, policy, ports, resolvers);
            (forall k :: 1 <= k <= |Up(c)| ==> Guarded(DoAll(t, Up(c)[..k]), c)) <==> !Jumped(t, c.names)
  {
    ProxyChainsWellFormed(uid, f, policy, ports, resolvers);
    GuardedIffNoJump(t, ProxyChains(uid, f, policy, ports, resolvers));
  }

  // ---- proxy chains of another account ----

  /**
   The jump to the proxy chain carries the account's id, the chain's name does
   not. Under another id, down leaves the earlier run's jump, and with it the
   chain; up under the new id leaves that jump too.
   */
  lemma OtherAccountStays(
    t: Table, uid: nat, earlier: nat, f: Family, policy: Policy, ports: seq<nat>, resolvers: seq<IP>)
    requires uid != earlier && "OUTPUT" in t && PROXY_CHAIN in t && Flat(t, [PROXY_CHAIN])
    requires t["OUTPUT"] == [Rule([Owner(earlier)], Jump(PROXY_CHAIN))]
    ensures var c := ProxyChains(uid, f, policy, ports, resolvers);
            && WellFormed(c) && Recoverable(t, c)
            && PROXY_CHAIN in DoAll(t, Down(c))
            && "OUTPUT" in DoAll(t, Down(c)) && DoAll(t, Down(c))["OUTPUT"] == t["OUTPUT"]
            && "OUTPUT" in DoAll(t, Up(c)) && t["OUTPUT"][0] in DoAll(t, Up(c))["OUTPUT"]
  {
    var c := ProxyChains(uid, f, policy, ports, resolvers);
    ProxyChainsWellFormed(uid, f, policy, ports, resolvers);
    StrangeJump(t, c, uid, earlier);
  }

  lemma StrangeJump(t: Table, c: Chains, uid: nat, earlier: nat)
    requires WellFormed(c) && c.names == [PROXY_CHAIN] && uid != earlier
    requires c.jumps == [Hook("OUTPUT", Rule([Owner(uid)], Jump(PROXY_CHAIN)))]
    requires "OUTPUT" in t && PROXY_CHAIN in t && Flat(t, [PROXY_CHAIN])
    requires t["OUTPUT"] == [Rule([Owner(earlier)], Jump(PROXY_CHAIN))]
    ensures Recoverable(t, c) && PROXY_CHAIN in DoAll(t, Down(c))
    ensures "OUTPUT" in DoAll(t, Down(c)) && DoAll(t, Down(c))["OUTPUT"] == t["OUTPUT"]
    ensures "OUTPUT" in DoAll(t, Up(c)) && t["OUTPUT"][0] in DoAll(t, Up(c))["OUTPUT"]
  {
    var r := t["OUTPUT"][0];
    assert r.matches[0] == Owner(earlier) && c.jumps[0].rule.matches[0] == Owner(uid);
    assert r in t["OUTPUT"] && Hook("OUTPUT", r) !in c.jumps && Strayed(t, c, PROXY_CHAIN);
    AllForeign(OwnAt(c.jumps, "OUTPUT"), t["OUTPUT"]);
    assert c.jumps[0] in c.jumps && c.names[0] in c.names;
    DownLeaves(t, c);
    UpInstalls(t, c);
    assert r in Foreign(OwnAt(c.jumps, "OUTPUT"), DoAll(t, Up(c))["OUTPUT"]);
  }

  // ---- from the built-in chains ----

  /** The rules of a chain of ours do not jump. */
  lemma NoJumps(iface: string, f: Family, policy: Policy)
    ensures forall r :: r in ForwardRules(iface, f, policy) ==> !r.target.Jump?
    ensures forall r :: r in InputRules(f, policy) ==> !r.target.Jump?
  {
  }

  lemma JumpApplies(m: Match, chain: string, p: Packet)
    ensures Applies(Rule([m], Jump(chain)), p) <==> Meets(p, m)
  {
    assert m in Rule([m], Jump(chain)).matches;
  }

  /** The tunnel's jump from a built-in chain. */
  function TunnelJump(iface: string, chain: string): Rule { Rule([In(iface)], Jump(chain)) }

  /**
   After an up over any recoverable table: the rules of FORWARD in front of
   the jump decide first, then the policy drops what it drops, whatever rules
   stand behind; any other packet meets those as before. No rule stands in
   front exactly when the jump was missing or first.
   */
  lemma TunnelForwardInTurn(t: Table, iface: string, f: Family, policy: Policy, p: Packet, depth: nat)
    requires Recoverable(t, TunnelChains(iface, f, policy)) && depth > 0
    ensures "FORWARD" in t
    ensures var after, jump := DoAll(t, Up(TunnelChains(iface, f, policy))), TunnelJump(iface, ForwardChain(iface));
            var front := Walk(after, InFront(t["FORWARD"], jump), p, depth);
            && (InFront(t["FORWARD"], jump) == [] <==> jump !in t["FORWARD"] || t["FORWARD"][0] == jump)
            && "FORWARD" in after
            && Walk(after, after["FORWARD"], p, depth) ==
                 if front.Some? then front
                 else if p.inIface == iface && (p.outIface == iface || Blocked(f, p) || Smtp(policy, p)) then Some(Drop)
                 else Walk(after, Behind(t["FORWARD"], jump), p, depth)
  {
    var c := TunnelChains(iface, f, policy);
    assert c.jumps[0] in c.jumps;
    TunnelChainsWellFormed(iface, f, policy);
    NoJumps(iface, f, policy);
    DecidesInTurn(t, c, c.jumps[0], p, depth);
    JumpApplies(In(iface), ForwardChain(iface), p);
    ForwardPolicy(iface, f, policy, p);
  }

  /** INPUT decides every packet from the tunnel no rule in front of the jump decides by the policy alone. */
  lemma TunnelInputInTurn(t: Table, iface: string, f: Family, policy: Policy, p: Packet, depth: nat)
    requires Recoverable(t, TunnelChains(iface, f, policy)) && depth > 0
    ensures "INPUT" in t
    ensures var after, jump := DoAll(t, Up(TunnelChains(iface, f, policy))), TunnelJump(iface, InputChain(iface));
            var front := Walk(after, InFront(t["INPUT"], jump), p, depth);
            && (InFront(t["INPUT"], jump) == [] <==> jump !in t["INPUT"] || t["INPUT"][0] == jump)
            && "INPUT" in after
            && Walk(after, after["INPUT"], p, depth) ==
                 if front.Some? then front
                 else if p.inIface != iface then Walk(after, Behind(t["INPUT"], jump), p, depth)
                 else Some(if p.ongoing || ToResolver(f, policy, p) || ToApi(policy, p) then Accept else Drop)
  {
    var c := TunnelChains(iface, f, policy);
    assert c.jumps[1] in c.jumps;
    TunnelChainsWellFormed(iface, f, policy);
    NoJumps(iface, f, policy);
    DecidesInTurn(t, c, c.jumps[1], p, depth);
    JumpApplies(In(iface), InputChain(iface), p);
    InputPolicy(f, policy, p);
  }

  /**
   A run that died left its jump, and a rule that accepts everything came to
   stand in front of it: the restart does not move the jump, and a packet from
   the tunnel into a blocked network still passes.
   */
  lemma JumpBehindAccept(t: Table, iface: string, f: Family, policy: Policy, p: Packet, depth: nat)
    requires "FORWARD" in t && t["FORWARD"] == [Rule([], Accept), TunnelJump(iface, ForwardChain(iface))]
    requires "INPUT" in t && t["INPUT"] == [TunnelJump(iface, InputChain(iface))]
    requires p.inIface == iface && Blocked(f, p) && depth > 0
    ensures var c := TunnelChains(iface, f, policy);
            && Recoverable(t, c)
            && "FORWARD" in DoAll(t, Up(c))
            && Walk(DoAll(t, Up(c)), DoAll(t, Up(c))["FORWARD"], p, depth) == Some(Accept)
  {
    TunnelForwardInTurn(t, iface, f, policy, p, depth);
    assert Applies(Rule([], Accept), p);
  }

  /** One chain of ours, jumped to from OUTPUT for an account's packets, decides those in its turn. */
  lemma OwnerInTurn(t: Table, c: Chains, chain: string, rules: seq<Rule>, uid: nat, p: Packet, depth: nat)
    requires WellFormed(c) && Recoverable(t, c) && depth > 0
    requires c.jumps == [Hook("OUTPUT", Rule([Owner(uid)], Jump(chain)))]
    requires RulesFor(c.rules, chain) == rules && forall r :: r in rules ==> !r.target.Jump?
    ensures "OUTPUT" in t && "OUTPUT" in DoAll(t, Up(c))
    ensures var after, jump := DoAll(t, Up(c)), Rule([Owner(uid)], Jump(chain));
            var front := Walk(after, InFront(t["OUTPUT"], jump), p, depth);
            Walk(after, after["OUTPUT"], p, depth) ==
              if front.Some? then front
              else if p.uid == uid && Decide(rules, p).Some? then Decide(rules, p)
              else Walk(after, Behind(t["OUTPUT"], jump), p, depth)
  {
    assert c.jumps[0] in c.jumps;
    DecidesInTurn(t, c, c.jumps[0], p, depth);
    JumpApplies(Owner(uid), chain, p);
  }

  /** OUTPUT decides the proxy account's packets no rule in front of the jump decides by the proxy policy first. */
  lemma ProxyPolicyInTurn(
    t: Table, uid: nat, f: Family, policy: Policy, ports: seq<nat>, resolvers: seq<IP>, p: Packet, depth: nat)
    requires Recoverable(t, ProxyChains(uid, f, policy, ports, resolvers)) && depth > 0
    ensures "OUTPUT" in t
    ensures var after := DoAll(t, Up(ProxyChains(uid, f, policy, ports, resolvers)));
            var jump := Rule([Owner(uid)], Jump(PROXY_CHAIN));
            var front := Walk(after, InFront(t["OUTPUT"], jump), p, depth);
            var own := Decide(ProxyRules(f, policy, ports, resolvers), p);
            && (InFront(t["OUTPUT"], jump) == [] <==> jump !in t["OUTPUT"] || t["OUTPUT"][0] == jump)
            && "OUTPUT" in after
            && Walk(after, after["OUTPUT"], p, depth) ==
                 if front.Some? then front
                 else if p.uid == uid && own.Some? then own
                 else Walk(after, Behind(t["OUTPUT"], jump), p, depth)
  {
    ProxyChainsWellFormed(uid, f, policy, ports, resolvers);
    OwnerInTurn(t, ProxyChains(uid, f, policy, ports, resolvers), PROXY_CHAIN,
                ProxyRules(f, policy, ports, resolvers), uid, p, depth);
  }

  // ---- which addresses are blocked ----

  /** "This network", private, shared, loopback, link-local, protocol, benchmarking, multicast, reserved. */
  predicate Special4(ip: IP)
    requires |ip| == 4
  {
    || ip[0] == 0 || ip[0] == 10 || ip[0] == 127 || ip[0] >= 224
    || (ip[0] == 100 && 64 <= ip[1] < 128)
    || (ip[0] == 169 && ip[1] == 254)
    || (ip[0] == 172 && 16 <= ip[1] < 32)
    || (ip[0] == 192 && ip[1] == 0 && ip[2] == 0)
    || (ip[0] == 192 && ip[1] == 168)
    || (ip[0] == 198 && 18 <= ip[1] < 20)
  }

  /** Unspecified, loopback, unique local, link-local, multicast. */
  predicate Special6(ip: IP)
    requires |ip| == 16
  {
    || (ip[15] <= 1 && ZeroUpTo(ip, 15))
    || 0xfc <= ip[0] <= 0xfd
    || (ip[0] == 0xfe && 0x80 <= ip[1] < 0xc0)
    || ip[0] == 0xff
  }

  lemma SmallPowers()
    ensures Pow2(0) == 1 && Pow2(1) == 2 && Pow2(4) == 16 && Pow2(6) == 64 && Pow2(7) == 128 && Pow2(8) == 256
  {
  }

  lemma InOneAppend(a: seq<Net>, b: seq<Net>, ip: IP)
    ensures InOne(a + b, ip) <==> InOne(a, ip) || InOne(b, ip)
  {
  }

  lemma FirstNets4(nets: seq<Net>, ip: IP)
    requires |ip| == 4 && nets == BLOCKED_V4[..2]
    ensures InOne(nets, ip) <==> ip[0] == 0 || ip[0] == 10
  {
    SmallPowers();
    ContainsInByte(nets[0], ip, 0, 8, 1, 0);
    ContainsInByte(nets[1], ip, 0, 8, 1, 10);
  }

  lemma NextNets4(nets: seq<Net>, ip: IP)
    requires |ip| == 4 && nets == BLOCKED_V4[2..4]
    ensures InOne(nets, ip) <==> ip[0] == 127 || (ip[0] == 100 && 64 <= ip[1] < 128)
  {
    SmallPowers();
    ContainsInByte(nets[0], ip, 1, 2, 64, 1);
    ContainsInByte(nets[1], ip, 0, 8, 1, 127);
  }

  lemma MiddleNets4(nets: seq<Net>, ip: IP)
    requires |ip| == 4 && nets == BLOCKED_V4[4..8]
    ensures InOne(nets, ip) <==>
      || (ip[0] == 169 && ip[1] == 254) || (ip[0] == 172 && 16 <= ip[1] < 32)
      || (ip[0] == 192 && ip[1] == 0 && ip[2] == 0) || (ip[0] == 192 && ip[1] == 168)
  {
    SmallPowers();
    ContainsInByte(nets[0], ip, 1, 8, 1, 254);
    ContainsInByte(nets[1], ip, 1, 4, 16, 1);
    ContainsInByte(nets[2], ip, 2, 8, 1, 0);
    ContainsInByte(nets[3], ip, 1, 8, 1, 168);
  }

  lemma LastNets4(nets: seq<Net>, ip: IP)
    requires |ip| == 4 && nets == BLOCKED_V4[8..]
    ensures InOne(nets, ip) <==> ip[0] >= 224 || (ip[0] == 198 && 18 <= ip[1] < 20)
  {
    SmallPowers();
    ContainsInByte(nets[0], ip, 1, 7, 2, 9);
    ContainsInByte(nets[1], ip, 0, 4, 16, 14);
    ContainsInByte(nets[2], ip, 0, 4, 16, 15);
  }

  /** The IPv4 list blocks exactly the special-purpose addresses, octet by octet. */
  lemma BlockedV4Octets(f: Family, p: Packet)
    requires f.blocked == BLOCKED_V4 && |p.dst| == 4
    ensures Blocked(f, p) <==> Special4(p.dst)
  {
    var first, next, middle, last := BLOCKED_V4[..2], BLOCKED_V4[2..4], BLOCKED_V4[4..8], BLOCKED_V4[8..];
    FirstNets4(first, p.dst);
    NextNets4(next, p.dst);
    MiddleNets4(middle, p.dst);
    LastNets4(last, p.dst);
    assert BLOCKED_V4 == first + (next + (middle + last));
    InOneAppend(first, next + (middle + last), p.dst);
    InOneAppend(next, middle + last, p.dst);
    InOneAppend(middle, last, p.dst);
    assert Blocked(f, p) <==> InOne(BLOCKED_V4, p.dst);
  }

  lemma TwoHosts(a: IP, b: IP, ip: IP)
    requires a != [] && b != []
    ensures InOne([HostNet(a), HostNet(b)], ip) <==> ip == a || ip == b
  {
    HostNetIsHost(a, ip);
    HostNetIsHost(b, ip);
    assert HostNet(a) in [HostNet(a), HostNet(b)] && HostNet(b) in [HostNet(a), HostNet(b)];
  }

  predicate ZeroUpTo(ip: IP, n: nat)
    requires n <= |ip|
  {
    forall i :: 0 <= i < n ==> ip[i] == 0
  }

  lemma ZeroBut(ip: IP, a: IP)
    requires |ip| == |a| == 16 && ZeroUpTo(a, 15)
    ensures ip == a <==> ZeroUpTo(ip, 15) && ip[15] == a[15]
  {
  }

  lemma FirstNets6(nets: seq<Net>, ip: IP)
    requires |ip| == 16 && nets == BLOCKED_V6[..2]
    ensures InOne(nets, ip) <==> ip[15] <= 1 && ZeroUpTo(ip, 15)
  {
    assert nets == [HostNet(nets[0].base), HostNet(nets[1].base)];
    TwoHosts(nets[0].base, nets[1].base, ip);
    ZeroBut(ip, nets[0].base);
    ZeroBut(ip, nets[1].base);
  }

  lemma LastNets6(nets: seq<Net>, ip: IP)
    requires |ip| == 16 && nets == BLOCKED_V6[2..]
    ensures InOne(nets, ip) <==> 0xfc <= ip[0] <= 0xfd || (ip[0] == 0xfe && 0x80 <= ip[1] < 0xc0) || ip[0] == 0xff
  {
    SmallPowers();
    ContainsInByte(nets[0], ip, 0, 7, 2, 126);
    ContainsInByte(nets[1], ip, 1, 2, 64, 2);
    ContainsInByte(nets[2], ip, 0, 8, 1, 255);
  }

  lemma BlockedV6Octets(f: Family, p: Packet)
    requires f.blocked == BLOCKED_V6 && |p.dst| == 16
    ensures Blocked(f, p) <==> Special6(p.dst)
  {
    var first, last := BLOCKED_V6[..2], BLOCKED_V6[2..];
    FirstNets6(first, p.dst);
    LastNets6(last, p.dst);
    assert BLOCKED_V6 == first + last;
    InOneAppend(first, last, p.dst);
    assert Blocked(f, p) <==> InOne(BLOCKED_V6, p.dst);
  }

  /** Whatever families the kernel has, their rules block exactly the special addresses of the family. */
  lemma FamiliesBlockSpecial(ipv6Present: bool, f: Family, p: Packet)
    requires f in Families(ipv6Present) && InFamily(f, p.dst)
    ensures Blocked(f, p) <==> if f.v6 then Special6(p.dst) else Special4(p.dst)
  {
    if f.v6 {
      BlockedV6Octets(f, p);
    } else {
      BlockedV4Octets(f, p);
    }
  }
}
