/**
 IP addresses as big-endian bytes, the successor the address pools step with,
 and CIDR networks.
 */
module Addresses {
  type Byte = b: int | 0 <= b < 256
  type IP = seq<Byte>

  function Pow256(n: nat): (p: nat)
    ensures p > 0
  {
    if n == 0 then 1 else 256 * Pow256(n - 1)
  }

  /** The number a byte string is in big-endian order. */
  function Value(b: seq<Byte>): nat { ValueOf(b, |b|) }

  /** The number the first k bytes are. */
  function ValueOf(b: seq<Byte>, k: nat): nat
    requires k <= |b|
  {
    if k == 0 then 0 else 256 * ValueOf(b, k - 1) + b[k - 1]
  }

  /** A number's bytes without leading zeros; none for zero. */
  function MinimalBytes(v: nat): (b: seq<Byte>) {
    if v == 0 then [] else MinimalBytes(v / 256) + [v % 256]
  }

  /** Overwrites the front of dst with as much of src as fits. */
  function CopyOver(dst: seq<Byte>, src: seq<Byte>): (r: seq<Byte>)
    ensures |r| == |dst|
  {
    seq(|dst|, i requires 0 <= i < |dst| => if i < |src| then src[i] else dst[i])
  }

  /**
   The address after ip: its value plus one, as a number without leading
   zeros, copied over the front of the address.
   */
  function NextIP(ip: IP): (next: IP)
    ensures |next| == |ip|
  {
    CopyOver(ip, MinimalBytes(Value(ip) + 1))
  }

  // ---- numbers and byte strings ----

  lemma {:induction false} ValueBound(b: seq<Byte>, k: nat)
    requires k <= |b|
    ensures ValueOf(b, k) < Pow256(k)
  {
    if k > 0 {
      ValueBound(b, k - 1);
    }
  }

  lemma {:induction false} SamePrefix(a: seq<Byte>, b: seq<Byte>, k: nat)
    requires k <= |a| && k <= |b|
    requires forall i :: 0 <= i < k ==> a[i] == b[i]
    ensures ValueOf(a, k) == ValueOf(b, k)
  {
    if k > 0 {
      SamePrefix(a, b, k - 1);
    }
  }

  /** The first byte counts for its place, the rest stay below it. */
  lemma {:induction false} FirstByte(b: seq<Byte>, k: nat)
    requires 0 < k <= |b|
    ensures b[0] * Pow256(k - 1) <= ValueOf(b, k) < (b[0] as int + 1) * Pow256(k - 1)
  {
    if k > 1 {
      FirstByte(b, k - 1);
      OneByteMore(b[0], Pow256(k - 2), ValueOf(b, k - 1), b[k - 1]);
    }
  }

  lemma OneByteMore(x: int, p: nat, v: int, d: Byte)
    requires x * p <= v < (x + 1) * p
    ensures x * (256 * p) <= 256 * v + d < (x + 1) * (256 * p)
  {
    assert x * (256 * p) == 256 * (x * p);
    assert (x + 1) * (256 * p) == 256 * ((x + 1) * p);
  }

  lemma {:induction false} ValueInjective(a: seq<Byte>, b: seq<Byte>, k: nat)
    requires k <= |a| && k <= |b| && ValueOf(a, k) == ValueOf(b, k)
    ensures forall i :: 0 <= i < k ==> a[i] == b[i]
  {
    if k > 0 {
      ValueInjective(a, b, k - 1);
    }
  }

  /** A leading byte other than zero is worth at least its place. */
  lemma LeadingByte(b: seq<Byte>)
    requires b != []
    ensures b[0] != 0 <==> Value(b) >= Pow256(|b| - 1)
  {
    FirstByte(b, |b|);
    if b[0] != 0 {
      assert b[0] * Pow256(|b| - 1) >= Pow256(|b| - 1);
    }
  }

  lemma {:induction false} MinimalBytesValue(v: nat)
    ensures Value(MinimalBytes(v)) == v
    ensures v > 0 ==> MinimalBytes(v) != [] && MinimalBytes(v)[0] != 0
  {
    if v > 0 {
      var front := MinimalBytes(v / 256);
      MinimalBytesValue(v / 256);
      SamePrefix(MinimalBytes(v), front, |front|);
    }
  }

  lemma {:induction false} PowMonotone(m: nat, n: nat)
    requires m <= n
    ensures Pow256(m) <= Pow256(n)
  {
    if m < n {
      PowMonotone(m, n - 1);
    }
  }

  /** How many bytes a number takes. */
  lemma MinimalBytesLength(v: nat, n: nat)
    requires v > 0
    ensures |MinimalBytes(v)| <= n <==> v < Pow256(n)
  {
  }

  /** b is the number v without leading zeros, and takes more than n bytes or not as v tells. */
  ghost predicate Fits(b: seq<Byte>, v: nat, n: nat) {
    && b != [] && b[0] != 0 && Value(b) == v
    && (|b| <= n <==> v < Pow256(n))
    && (n > 0 ==> (|b| <= n - 1 <==> v < Pow256(n - 1)))
  }

  lemma MinimalBytesFit(v: nat, n: nat)
    requires v > 0
    ensures Fits(MinimalBytes(v), v, n)
  {
    MinimalBytesValue(v);
    MinimalBytesLength(v, n);
    if n > 0 {
      MinimalBytesLength(v, n - 1);
    }
  }

  lemma CopiedNumber(ip: IP, b: seq<Byte>, v: nat)
    requires ip != [] && Fits(b, v, |ip|)
    ensures Value(CopyOver(ip, b)) == v <==> Pow256(|ip| - 1) <= v < Pow256(|ip|)
  {
    var r := CopyOver(ip, b);
    if |b| == |ip| {
      assert r == b;
    } else if |b| < |ip| {
      LeadingByte(r);
    } else {
      ValueBound(r, |r|);
    }
  }

  /**
   The step is the successor exactly when the successor takes all the bytes
   of the address: not when it has leading zero bytes, not past the top.
   */
  lemma NextIsSuccessor(ip: IP)
    requires ip != []
    ensures Value(NextIP(ip)) == Value(ip) + 1 <==> Pow256(|ip| - 1) <= Value(ip) + 1 < Pow256(|ip|)
  {
    MinimalBytesFit(Value(ip) + 1, |ip|);
    CopiedNumber(ip, MinimalBytes(Value(ip) + 1), Value(ip) + 1);
  }

  lemma LastByte(b: seq<Byte>)
    requires b != []
    ensures b[|b| - 1] == Value(b) % 256
  {
  }

  /** An address whose first byte is not zero steps to its successor below the top. */
  lemma NextSteps(ip: IP)
    requires ip != [] && Pow256(|ip| - 1) <= Value(ip) && Value(ip) + 1 < Pow256(|ip|)
    ensures Value(NextIP(ip)) == Value(ip) + 1
  {
    NextIsSuccessor(ip);
  }

  /** With a zero first byte the step leaves the address far above. */
  lemma NextWithLeadingZero()
    ensures NextIP([0, 0, 0, 2]) == [3, 0, 0, 2]
  {
    var ip: IP := [0, 0, 0, 2];
    assert ValueOf(ip, 1) == 0 && ValueOf(ip, 2) == 0 && ValueOf(ip, 3) == 0;
    assert MinimalBytes(3) == [3];
  }

  // ---- skipping .0 and .255 ----

  /** The last byte is one the IPv4 pool never hands out. */
  predicate Edge(ip: IP)
    requires ip != []
  {
    ip[|ip| - 1] == 0 || ip[|ip| - 1] == 255
  }

  function EdgesAhead(ip: IP): nat
    requires ip != []
  {
    if ip[0] == 0 then 3 else if ip[|ip| - 1] == 255 then 2 else if ip[|ip| - 1] == 0 then 1 else 0
  }

  lemma {:induction false} PowBytes(n: nat)
    ensures |MinimalBytes(Pow256(n))| == n + 1
    ensures forall i :: 1 <= i <= n ==> MinimalBytes(Pow256(n))[i] == 0
  {
    if n > 0 {
      PowBytes(n - 1);
      assert Pow256(n) / 256 == Pow256(n - 1) && Pow256(n) % 256 == 0;
    } else {
      assert MinimalBytes(1) == MinimalBytes(0) + [1];
    }
  }

  lemma NextFirstByte(ip: IP)
    requires ip != []
    ensures NextIP(ip)[0] != 0
  {
    MinimalBytesValue(Value(ip) + 1);
  }

  lemma NextLastByte(ip: IP)
    requires |ip| > 1 && ip[0] != 0
    ensures ip[|ip| - 1] == 255 ==> NextIP(ip)[|ip| - 1] == 0
    ensures ip[|ip| - 1] != 255 ==> NextIP(ip)[|ip| - 1] == ip[|ip| - 1] + 1
  {
    var n, v := |ip|, Value(ip);
    LeadingByte(ip);
    ValueBound(ip, n);
    LastByte(ip);
    if v + 1 < Pow256(n) {
      NextSteps(ip);
      LastByte(NextIP(ip));
    } else {
      PowBytes(n);
      assert Pow256(n) == 256 * Pow256(n - 1);
    }
  }

  /** However the step goes, at most three steps leave the edges: the skip loop ends. */
  lemma SkipProgress(ip: IP)
    requires |ip| > 1 && Edge(ip)
    ensures EdgesAhead(NextIP(ip)) < EdgesAhead(ip)
  {
    NextFirstByte(ip);
    if ip[0] != 0 {
      NextLastByte(ip);
    }
  }

  function SkipEdges(ip: IP): (r: IP)
    requires |ip| > 1
    ensures |r| == |ip| && !Edge(r) && r[|r| - 1] != 0 && r[|r| - 1] != 255
    decreases EdgesAhead(ip)
  {
    if Edge(ip) then SkipProgress(ip); SkipEdges(NextIP(ip)) else ip
  }

  /** Skipping passes over edge addresses only. */
  lemma {:induction false} SkipSteps(ip: IP)
    requires |ip| > 1 && Pow256(|ip| - 1) <= Value(ip) && Value(ip) + 2 < Pow256(|ip|)
    ensures Value(ip) <= Value(SkipEdges(ip)) <= Value(ip) + 2
    ensures forall a: IP :: |a| == |ip| && Value(ip) <= Value(a) < Value(SkipEdges(ip)) ==>
      a[|a| - 1] == 0 || a[|a| - 1] == 255
  {
    LastByte(ip);
    if Edge(ip) {
      var next := NextIP(ip);
      NextSteps(ip);
      LastByte(next);
      assert SkipEdges(ip) == SkipEdges(next);
      if Edge(next) {
        var third := NextIP(next);
        NextSteps(next);
        LastByte(third);
        assert SkipEdges(next) == SkipEdges(third) && !Edge(third);
        assert SkipEdges(third) == third;
      } else {
        assert SkipEdges(next) == next;
      }
      forall a: IP | |a| == |ip| && Value(ip) <= Value(a) < Value(SkipEdges(ip)) ensures Edge(a) {
        LastByte(a);
        assert Value(a) == Value(ip) || (Edge(next) && Value(a) == Value(next));
      }
    }
  }
}
