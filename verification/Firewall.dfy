/**
 Rules and chains of a packet filter: what a rule matches, how a chain
 decides, and the commands that change the chains of one table.
 */
module Firewall {
  import opened Basics
  import opened Addresses
  import opened Networks

  datatype Match =
    | In(iface: string)
    | Out(iface: string)
    | To(net: Net)
    | Protocol(name: string)
    | Port(port: nat)
    | Ongoing
    | AskedFor(ip: IP)
    | AskedForPort(port: nat)
    | Local
    | Owner(uid: nat)

  datatype Target = Accept | Drop | Reject | Jump(chain: string)

  datatype Rule = Rule(matches: seq<Match>, target: Target)

  /** A packet as the rules see it; origDst is the destination before translation. */
  datatype Packet = Packet(
    inIface: string, outIface: string, protocol: string, dst: IP, port: nat,
    ongoing: bool, origDst: IP, origPort: nat, local: bool, uid: nat)

  predicate Meets(p: Packet, m: Match) {
    match m
    case In(iface) => p.inIface == iface
    case Out(iface) => p.outIface == iface
    case To(net) => ValidNet(net) && Contains(net, p.dst)
    case Protocol(name) => p.protocol == name
    case Port(port) => p.port == port
    case Ongoing => p.ongoing
    case AskedFor(ip) => p.origDst == ip
    case AskedForPort(port) => p.origPort == port
    case Local => p.local
    case Owner(uid) => p.uid == uid
  }

  predicate Applies(r: Rule, p: Packet) { forall m :: m in r.matches ==> Meets(p, m) }

  /** The first rule that applies decides; none leaves the packet to the caller. */
  function Decide(rules: seq<Rule>, p: Packet): Option<Target> {
    if rules == [] then None
    else if Applies(rules[0], p) then Some(rules[0].target)
    else Decide(rules[1..], p)
  }

  lemma {:induction false} DecideAppend(a: seq<Rule>, b: seq<Rule>, p: Packet)
    ensures Decide(a + b, p) == if Decide(a, p).Some? then Decide(a, p) else Decide(b, p)
  {
    if a == [] {
      assert a + b == b;
    } else {
      assert (a + b)[1..] == a[1..] + b;
      DecideAppend(a[1..], b, p);
    }
  }

  /** A run of rules with one target decides exactly when one of them applies. */
  lemma {:induction false} DecideUniform(rules: seq<Rule>, target: Target, p: Packet)
    requires forall r :: r in rules ==> r.target == target
    ensures Decide(rules, p) == if exists r :: r in rules && Applies(r, p) then Some(target) else None
  {
    if rules != [] {
      assert rules[0] in rules;
      DecideUniform(rules[1..], target, p);
    }
  }

  // ---- the table and its commands ----

  type Table = map<string, seq<Rule>>

  function Count(rules: seq<Rule>, r: Rule): (n: nat)
    ensures n > 0 <==> r in rules
  {
    if rules == [] then 0 else (if rules[0] == r then 1 else 0) + Count(rules[1..], r)
  }

  /** The rules without the first occurrence of r. */
  function Strike(rules: seq<Rule>, r: Rule): (left: seq<Rule>)
    ensures forall x :: x in left ==> x in rules
    ensures Count(left, r) == if r in rules then Count(rules, r) - 1 else 0
    ensures r !in rules ==> left == rules
  {
    if rules == [] then [] else if rules[0] == r then rules[1..] else [rules[0]] + Strike(rules[1..], r)
  }

  /** Whether any rule of the table jumps to the chain. */
  predicate Referenced(t: Table, chain: string) {
    exists c :: c in t && exists r :: r in t[c] && r.target == Jump(chain)
  }

  datatype Command =
    | NewChain(chain: string)
    | Flush(chain: string)
    | DeleteChain(chain: string)
    | Append(chain: string, rule: Rule)
    | Insert(chain: string, rule: Rule)
    | Check(chain: string, rule: Rule)
    | Delete(chain: string, rule: Rule)

  /** The table after a command, or none when the command fails and changes nothing. */
  function Execute(t: Table, c: Command): Option<Table> {
    match c
    case NewChain(chain) => if chain in t then None else Some(t[chain := []])
    case Flush(chain) => if chain in t then Some(t[chain := []]) else None
    case DeleteChain(chain) =>
      if chain in t && t[chain] == [] && !Referenced(t, chain) then Some(t - {chain}) else None
    case Append(chain, rule) => if chain in t then Some(t[chain := t[chain] + [rule]]) else None
    case Insert(chain, rule) => if chain in t then Some(t[chain := [rule] + t[chain]]) else None
    case Check(chain, rule) => if chain in t && rule in t[chain] then Some(t) else None
    case Delete(chain, rule) =>
      if chain in t && rule in t[chain] then Some(t[chain := Strike(t[chain], rule)]) else None
  }

  /** The table after a command whose failure is ignored. */
  function Try(t: Table, c: Command): Table {
    var r := Execute(t, c);
    if r.Some? then r.value else t
  }

  // ---- jumps ----

  /** A chain's decision with jumps followed, up to a depth of nesting; a chain that does not decide returns. */
  function Walk(t: Table, rules: seq<Rule>, p: Packet, depth: nat): Option<Target>
    decreases depth, |rules|
  {
    if rules == [] then None
    else if !Applies(rules[0], p) then Walk(t, rules[1..], p, depth)
    else if !rules[0].target.Jump? then Some(rules[0].target)
    else
      var chain := rules[0].target.chain;
      var inner := if depth > 0 && chain in t then Walk(t, t[chain], p, depth - 1) else None;
      if inner.Some? then inner else Walk(t, rules[1..], p, depth)
  }

  /** A chain without jumps decides by first match. */
  lemma {:induction false} WalkFlat(t: Table, rules: seq<Rule>, p: Packet, depth: nat)
    requires forall r :: r in rules ==> !r.target.Jump?
    ensures Walk(t, rules, p, depth) == Decide(rules, p)
  {
    if rules != [] {
      assert rules[0] in rules;
      WalkFlat(t, rules[1..], p, depth);
    }
  }

  lemma {:induction false} WalkAppend(t: Table, a: seq<Rule>, b: seq<Rule>, p: Packet, depth: nat)
    ensures Walk(t, a + b, p, depth) ==
      if Walk(t, a, p, depth).Some? then Walk(t, a, p, depth) else Walk(t, b, p, depth)
  {
    if a == [] {
      assert a + b == b;
    } else {
      assert (a + b)[1..] == a[1..] + b;
      WalkAppend(t, a[1..], b, p, depth);
    }
  }

  /** A jump at the top to a chain without jumps: what that chain decides comes first. */
  lemma WalkJumpFirst(t: Table, jump: Rule, rest: seq<Rule>, p: Packet, depth: nat)
    requires jump.target.Jump? && jump.target.chain in t && depth > 0
    requires forall r :: r in t[jump.target.chain] ==> !r.target.Jump?
    ensures Walk(t, [jump] + rest, p, depth) ==
      var first := if Applies(jump, p) then Decide(t[jump.target.chain], p) else None;
      if first.Some? then first else Walk(t, rest, p, depth)
  {
    assert ([jump] + rest)[1..] == rest;
    WalkFlat(t, t[jump.target.chain], p, depth - 1);
  }
}
