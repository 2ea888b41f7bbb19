/**
 The tunnel address pools: a cursor that walks the network and a list of
 addresses given back. The IPv4 pool skips addresses ending in .0 and .255,
 the IPv6 pool does not; they are otherwise the same.
 */
module Pools {
  import opened Basics
  import opened Addresses
  import opened Networks

  /** start is where the cursor began; the pool itself does not keep it. */
  datatype Pool = Pool(net: Net, skip: bool, start: IP, current: IP, available: seq<IP>, reserved: set<IP>)

  function NewPool(net: Net, skip: bool, start: IP): Pool {
    Pool(net, skip, start, start, [], {})
  }

  /** The pool walks addresses whose step is the successor, all the way. */
  predicate WellPlaced(net: Net, skip: bool, start: IP) {
    && ValidNet(net) && |start| > 1 && Contains(net, start)
    && Pow256(|start| - 1) <= Value(start)
    && End(net) + 2 < Pow256(|start|)
  }

  /** An address the pool may hand out. */
  predicate Assignable(p: Pool, a: IP)
    requires WellPlaced(p.net, p.skip, p.start)
  {
    Contains(p.net, a) && Value(p.start) <= Value(a) && !(p.skip && Edge(a))
  }

  ghost predicate Distinct(s: seq<IP>) {
    forall i, j :: 0 <= i < j < |s| ==> s[i] != s[j]
  }

  /** Where the cursor can be: in or at the end of the network, or resting past it. */
  predicate CursorPlaced(p: Pool)
    requires WellPlaced(p.net, p.skip, p.start)
  {
    && |p.current| == |p.start| && Value(p.start) <= Value(p.current)
    && (Value(p.current) <= End(p.net)
        || (p.skip && !Edge(p.current) && Value(p.current) <= End(p.net) + 2))
  }

  /** Issued by the cursor so far. */
  predicate Issued(p: Pool, a: IP)
    requires WellPlaced(p.net, p.skip, p.start)
  {
    Assignable(p, a) && Value(a) < Value(p.current)
  }

  /**
   The reserved and the available addresses are disjoint, without
   duplicates, and together exactly the addresses the cursor has issued.
   */
  ghost predicate Valid(p: Pool) {
    && WellPlaced(p.net, p.skip, p.start)
    && CursorPlaced(p)
    && Distinct(p.available)
    && (forall a :: a in p.available ==> a !in p.reserved)
    && (forall a :: (a in p.reserved || a in p.available) <==> Issued(p, a))
  }

  /** The cursor after skipping the edges. */
  function Cursor(p: Pool): IP
    requires |p.current| > 1
  {
    if p.skip then SkipEdges(p.current) else p.current
  }

  datatype Got = Got(pool: Pool, ip: Option<IP>)

  function Get(p: Pool): Got
    requires |p.current| > 1 && ValidNet(p.net)
  {
    if p.available == [] then
      var c := Cursor(p);
      if !Contains(p.net, c) then Got(p.(current := c), None)
      else Got(p.(current := NextIP(c), reserved := p.reserved + {c}), Some(c))
    else
      Got(p.(available := p.available[1..], reserved := p.reserved + {p.available[0]}), Some(p.available[0]))
  }

  function Release(p: Pool, ip: IP): Pool {
    if ip in p.reserved then p.(reserved := p.reserved - {ip}, available := p.available + [ip]) else p
  }

  lemma NewPoolValid(net: Net, skip: bool, start: IP)
    requires WellPlaced(net, skip, start)
    ensures Valid(NewPool(net, skip, start))
  {
  }

  /** Between the old and the skipped cursor there is nothing to hand out. */
  lemma CursorSkips(p: Pool)
    requires WellPlaced(p.net, p.skip, p.start) && CursorPlaced(p)
    ensures var q := p.(current := Cursor(p));
            && CursorPlaced(q) && Value(p.current) <= Value(q.current) && !(q.skip && Edge(q.current))
            && forall a :: Issued(q, a) <==> Issued(p, a)
  {
    if p.skip && Edge(p.current) {
      SkipSteps(p.current);
    }
  }

  /** Addresses are told apart by their numbers. */
  lemma SameAddress(a: IP, b: IP)
    requires |a| == |b| && Value(a) == Value(b)
    ensures a == b
  {
    ValueInjective(a, b, |a|);
  }

  /** Taking the cursor's address issues that one address. */
  lemma CursorTakes(p: Pool)
    requires WellPlaced(p.net, p.skip, p.start) && CursorPlaced(p)
    requires Contains(p.net, p.current) && !(p.skip && Edge(p.current))
    ensures var q := p.(current := NextIP(p.current));
            && CursorPlaced(q)
            && forall a :: Issued(q, a) <==> Issued(p, a) || a == p.current
  {
    ContainsIsRange(p.net, p.current);
    NextSteps(p.current);
    var q := p.(current := NextIP(p.current));
    forall a | Issued(q, a) ensures Issued(p, a) || a == p.current {
      if Value(a) == Value(p.current) {
        SameAddress(a, p.current);
      }
    }
  }

  /**
   Get hands out an assignable address nobody holds, and fails only when
   every assignable address is reserved, changing no reservation then.
   */
  lemma GetCorrect(p: Pool)
    requires Valid(p)
    ensures var g := Get(p);
            && Valid(g.pool)
            && (g.ip.Some? ==>
                  && Assignable(p, g.ip.value) && g.ip.value !in p.reserved
                  && g.pool.reserved == p.reserved + {g.ip.value})
            && (g.ip.None? ==> g.pool.reserved == p.reserved && forall a :: Assignable(p, a) ==> a in p.reserved)
  {
    if p.available == [] {
      CursorSkips(p);
      var q := p.(current := Cursor(p));
      ContainsIsRange(p.net, q.current);
      if Contains(p.net, q.current) {
        CursorTakes(q);
      } else {
        forall a | Assignable(p, a) ensures a in p.reserved {
          ContainsIsRange(p.net, a);
          assert Issued(q, a);
        }
      }
    } else {
      var rest := p.available[1..];
      assert forall i :: 0 <= i < |rest| ==> rest[i] == p.available[i + 1];
      assert forall a :: a in p.available <==> a == p.available[0] || a in rest;
    }
  }

  /** Release gives back what is reserved and ignores everything else. */
  lemma ReleaseCorrect(p: Pool, ip: IP)
    requires Valid(p)
    ensures Valid(Release(p, ip)) && Release(p, ip).reserved == p.reserved - {ip}
  {
  }

  // ---- over any use of the pool ----

  datatype Use = Taken | Returned(ip: IP)

  function After(p: Pool, u: Use): Pool
    requires |p.current| > 1 && ValidNet(p.net)
  {
    match u
    case Taken => Get(p).pool
    case Returned(ip) => Release(p, ip)
  }

  ghost predicate Reaches(p: Pool, uses: seq<Use>, q: Pool)
    decreases |uses|
  {
    if uses == [] then p == q
    else |p.current| > 1 && ValidNet(p.net) && Reaches(After(p, uses[0]), uses[1..], q)
  }

  /** However it is used, a pool keeps its guarantee. */
  lemma {:induction false} AlwaysValid(p: Pool, uses: seq<Use>, q: Pool)
    requires Valid(p) && Reaches(p, uses, q)
    ensures Valid(q) && q.net == p.net && q.skip == p.skip && q.start == p.start
    decreases |uses|
  {
    if uses != [] {
      GetCorrect(p);
      if uses[0].Returned? {
        ReleaseCorrect(p, uses[0].ip);
      }
      AlwaysValid(After(p, uses[0]), uses[1..], q);
    }
  }

  lemma {:induction false} SkipKeepsFirstByte(ip: IP)
    requires |ip| > 1 && ip[0] != 0
    ensures SkipEdges(ip)[0] != 0
    decreases EdgesAhead(ip)
  {
    if Edge(ip) {
      SkipProgress(ip);
      NextFirstByte(ip);
      SkipKeepsFirstByte(NextIP(ip));
    }
  }

  lemma BelowFirstByte(net: Net, ip: IP)
    requires ValidNet(net) && ip != [] && ip[0] != 0 && End(net) <= Pow256(|ip| - 1)
    ensures !Contains(net, ip)
  {
    LeadingByte(ip);
    if |ip| == |net.base| {
      ContainsIsRange(net, ip);
    }
  }

  /**
   A pool over a network of addresses with a zero first byte hands out its
   first address and is full from then on, whatever the network's size.
   */
  lemma LeadingZeroStarves(net: Net, skip: bool, start: IP)
    requires ValidNet(net) && |start| > 1 && Contains(net, start) && End(net) <= Pow256(|start| - 1)
    requires !(skip && Edge(start))
    ensures Get(NewPool(net, skip, start)).ip == Some(start)
    ensures Get(Get(NewPool(net, skip, start)).pool).ip == None
  {
    var next := NextIP(start);
    NextFirstByte(start);
    SkipKeepsFirstByte(next);
    BelowFirstByte(net, if skip then SkipEdges(next) else next);
  }

  // ---- in place ----

  class AddressPool {
    const net: Net
    const skip: bool
    ghost const start: IP
    var current: IP
    var available: seq<IP>
    var reserved: set<IP>

    ghost function View(): Pool
      reads this
    {
      Pool(net, skip, start, current, available, reserved)
    }

    constructor (net: Net, skip: bool, start: IP)
      ensures View() == NewPool(net, skip, start)
    {
      this.net, this.skip, this.start := net, skip, start;
      current, available, reserved := start, [], {};
    }

    method Take() returns (ip: Option<IP>)
      requires |current| > 1 && ValidNet(net)
      modifies this
      ensures Got(View(), ip) == Get(old(View()))
    {
      if |available| == 0 {
        if skip {
          while Edge(current)
            invariant |current| > 1 && available == [] && reserved == old(reserved)
            invariant SkipEdges(current) == SkipEdges(old(current))
            decreases EdgesAhead(current)
          {
            SkipProgress(current);
            current := NextIP(current);
          }
        }
        if !Contains(net, current) {
          return None;
        }
        ip := Some(current);
        current := NextIP(current);
      } else {
        ip := Some(available[0]);
        available := available[1..];
      }
      reserved := reserved + {ip.value};
    }

    method GiveBack(ip: IP)
      modifies this
      ensures View() == Release(old(View()), ip)
    {
      if ip in reserved {
        reserved := reserved - {ip};
        available := available + [ip];
      }
    }
  }
}
