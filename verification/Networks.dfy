/**
 CIDR networks as sets of addresses.
 */
module Networks {
  import opened Addresses

  function Pow2(h: nat): (p: nat)
    ensures p > 0
  {
    if h == 0 then 1 else 2 * Pow2(h - 1)
  }

  /** A network: an address in it and its prefix length. */
  datatype Net = Net(base: IP, ones: nat)

  predicate ValidNet(net: Net) { net.base != [] && net.ones <= 8 * |net.base| }

  function Size(net: Net): nat
    requires ValidNet(net)
  {
    Pow2(8 * |net.base| - net.ones)
  }

  /** The number with the bits below the size cleared. */
  function Masked(v: int, size: nat): int
    requires size > 0
  {
    v - v % size
  }

  predicate Contains(net: Net, ip: IP)
    requires ValidNet(net)
  {
    |ip| == |net.base| && Masked(Value(ip), Size(net)) == Masked(Value(net.base), Size(net))
  }

  function Low(net: Net): int
    requires ValidNet(net)
  {
    Masked(Value(net.base), Size(net))
  }

  function End(net: Net): int
    requires ValidNet(net)
  {
    Low(net) + Size(net)
  }

  // ---- masking ----

  lemma MulMonotone(a: int, b: int, c: nat)
    requires a <= b
    ensures a * c <= b * c
  {
  }

  lemma MaskedIsMultiple(v: int, size: nat) returns (q: int)
    requires size > 0
    ensures Masked(v, size) == q * size && q * size <= v < q * size + size
  {
    q := v / size;
  }

  /** The multiple of the size at most one size below is the masked number. */
  lemma MaskUnique(v: int, q: int, size: nat)
    requires size > 0 && q * size <= v < q * size + size
    ensures Masked(v, size) == q * size
  {
    var k := MaskedIsMultiple(v, size);
    if k < q {
      MulMonotone(k + 1, q, size);
    } else if q < k {
      MulMonotone(q + 1, k, size);
    }
  }

  /** Masking does not go below a multiple of the size. */
  lemma MaskedAbove(v: int, k: int, size: nat)
    requires size > 0 && k * size <= v
    ensures k * size <= Masked(v, size)
  {
    var q := MaskedIsMultiple(v, size);
    if q < k {
      MulMonotone(q + 1, k, size);
    } else {
      MulMonotone(k, q, size);
    }
  }

  /** Masking to a finer size first makes no difference. */
  lemma MaskTwice(v: int, k: nat, size: nat)
    requires k > 0 && size > 0 && k * size > 0
    ensures Masked(Masked(v, size), k * size) == Masked(v, k * size)
  {
    var q := MaskedIsMultiple(v, size);
    var r := MaskedIsMultiple(v, k * size);
    assert r * (k * size) == (r * k) * size;
    if q < r * k {
      MulMonotone(q + 1, r * k, size);
    }
    MulMonotone(r * k, q, size);
    MaskUnique(q * size, r, k * size);
  }

  /** A network is the interval from its first address on. */
  lemma ContainsIsRange(net: Net, ip: IP)
    requires ValidNet(net) && |ip| == |net.base|
    ensures Contains(net, ip) <==> Low(net) <= Value(ip) < End(net)
  {
    var q := MaskedIsMultiple(Value(net.base), Size(net));
    if Low(net) <= Value(ip) < End(net) {
      MaskUnique(Value(ip), q, Size(net));
    }
  }

  lemma {:induction false} Pow2Splits(i: nat, j: nat)
    requires j <= i
    ensures Pow2(i) == Pow2(i - j) * Pow2(j)
  {
    if j > 0 {
      Pow2Splits(i, j - 1);
      assert Pow2(i - j + 1) == 2 * Pow2(i - j) && Pow2(j) == 2 * Pow2(j - 1);
      assert 2 * Pow2(i - j) * Pow2(j - 1) == Pow2(i - j) * (2 * Pow2(j - 1));
    }
  }

  lemma {:induction false} Pow2Bytes(m: nat)
    ensures Pow2(8 * m) == Pow256(m)
  {
    if m > 0 {
      Pow2Bytes(m - 1);
      Pow2Splits(8 * m, 8 * (m - 1));
      assert Pow2(4) == 16 && Pow2(8) == 256;
    }
  }

  /** Do the networks share addresses, as the code asks: does one hold the other's first. */
  predicate Overlap(a: Net, b: Net)
    requires ValidNet(a) && ValidNet(b)
  {
    Contains(a, b.base) || Contains(b, a.base)
  }

  /** An address of both puts the finer network's base in the coarser one. */
  lemma SharedMeansOverlap(a: Net, b: Net, ip: IP)
    requires ValidNet(a) && ValidNet(b) && a.ones <= b.ones && Contains(a, ip) && Contains(b, ip)
    ensures Contains(a, b.base)
  {
    var n, k := 8 * |ip|, Pow2(b.ones - a.ones);
    Pow2Splits(n - a.ones, n - b.ones);
    assert Size(a) == k * Size(b);
    MaskTwice(Value(ip), k, Size(b));
    MaskTwice(Value(b.base), k, Size(b));
  }

  ghost predicate Disjoint(a: Net, b: Net)
    requires ValidNet(a) && ValidNet(b)
  {
    forall ip: IP :: !(Contains(a, ip) && Contains(b, ip))
  }

  /** The code's test is exact: two networks share no address iff it says so. */
  lemma OverlapIsExact(a: Net, b: Net)
    requires ValidNet(a) && ValidNet(b)
    ensures Disjoint(a, b) <==> !Overlap(a, b)
  {
    forall ip: IP | Contains(a, ip) && Contains(b, ip) ensures Overlap(a, b) {
      if a.ones <= b.ones {
        SharedMeansOverlap(a, b, ip);
      } else {
        SharedMeansOverlap(b, a, ip);
      }
    }
    if Contains(a, b.base) {
      assert Contains(b, b.base);
    }
    if Contains(b, a.base) {
      assert Contains(a, a.base);
    }
  }

  // ---- prefixes bit by bit ----

  lemma Scale(v: nat, p: nat)
    ensures 256 * (v * p) == v * (256 * p)
  {
  }

  /** The number of an address, split after its first k bytes. */
  lemma {:induction false} ValueSplit(ip: IP, k: nat, m: nat) returns (r: nat)
    requires k <= m <= |ip|
    ensures ValueOf(ip, m) == ValueOf(ip, k) * Pow256(m - k) + r && r < Pow256(m - k)
    decreases m
  {
    if m == k {
      r := 0;
    } else {
      var s := ValueSplit(ip, k, m - 1);
      r := 256 * s + ip[m - 1];
      Scale(ValueOf(ip, k), Pow256(m - 1 - k));
    }
  }

  /** Masking a number w units of p below its place keeps the quotient by w. */
  lemma MaskQuotient(a: nat, p: nat, r: nat, w: nat) returns (q: nat)
    requires w > 0 && r < p && w * p > 0
    ensures q == a / w && Masked(a * p + r, w * p) == q * (w * p)
  {
    q := a / w;
    var s := a % w;
    assert a == q * w + s;
    assert a * p == q * (w * p) + s * p by {
      assert (q * w + s) * p == q * w * p + s * p;
    }
    MulMonotone(s + 1, w, p);
    assert (s + 1) * p == s * p + p;
    assert q * (w * p) >= 0 && s * p >= 0;
    MaskUnique(a * p + r, q, w * p);
  }

  lemma SameMultiple(a: int, b: int, c: nat)
    requires c > 0
    ensures a * c == b * c <==> a == b
  {
    if a < b {
      MulMonotone(a + 1, b, c);
    } else if b < a {
      MulMonotone(b + 1, a, c);
    }
  }

  lemma TopBits(a: nat, x: Byte, w: nat, u: nat)
    requires w > 0 && w * u == 256
    ensures (256 * a + x) / w == a * u + x / w && x / w < u
  {
    var q, s := x / w, x % w;
    assert 256 * a + x == (a * u + q) * w + s by {
      assert (a * u + q) * w == a * (u * w) + q * w;
    }
    MaskUnique(256 * a + x, a * u + q, w);
    var t := MaskedIsMultiple(256 * a + x, w);
    SameMultiple(t, a * u + q, w);
    if q >= u {
      MulMonotone(u, q, w);
    }
  }

  lemma SameDigits(a: nat, x: nat, b: nat, y: nat, u: nat)
    requires x < u && y < u
    ensures a * u + x == b * u + y <==> a == b && x == y
  {
    if a < b {
      MulMonotone(a + 1, b, u);
    } else if b < a {
      MulMonotone(b + 1, a, u);
    }
  }

  lemma SameBytes(a: IP, b: IP, k: nat)
    requires k <= |a| && k <= |b|
    ensures ValueOf(a, k) == ValueOf(b, k) <==> forall i :: 0 <= i < k ==> a[i] == b[i]
  {
  }

  lemma SizeInBytes(net: Net, k: nat, j: nat)
    requires ValidNet(net) && k < |net.base| && j <= 8 && net.ones == 8 * k + j
    ensures Size(net) == Pow2(8 - j) * Pow256(|net.base| - k - 1)
    ensures Pow2(8 - j) * Pow2(j) == 256
  {
    var n := |net.base|;
    Pow2Bytes(n - k - 1);
    Pow2Splits(8 * n - net.ones, 8 * (n - k - 1));
    Pow2Splits(8, j);
    assert Pow2(4) == 16 && Pow2(8) == 256;
  }

  lemma ContainsByQuotient(net: Net, ip: IP, k: nat, w: nat)
    requires ValidNet(net) && |ip| == |net.base| && k < |ip| && w > 0
    requires Size(net) == w * Pow256(|ip| - k - 1)
    ensures Contains(net, ip) <==> ValueOf(ip, k + 1) / w == ValueOf(net.base, k + 1) / w
  {
    var n, p := |ip|, Pow256(|ip| - k - 1);
    var r := ValueSplit(ip, k + 1, n);
    var s := ValueSplit(net.base, k + 1, n);
    var x := MaskQuotient(ValueOf(ip, k + 1), p, r, w);
    var y := MaskQuotient(ValueOf(net.base, k + 1), p, s, w);
    SameMultiple(x, y, w * p);
  }

  lemma SameTopBits(a: nat, x: Byte, b: nat, y: Byte, w: nat, u: nat)
    requires w > 0 && w * u == 256
    ensures (256 * a + x) / w == (256 * b + y) / w <==> a == b && x / w == y / w
  {
    TopBits(a, x, w, u);
    TopBits(b, y, w, u);
    SameDigits(a, x / w, b, y / w, u);
  }

  /**
   A network whose prefix ends within byte k holds exactly the addresses
   with the same first k bytes and the same top bits of byte k.
   */
  lemma ContainsByBits(net: Net, ip: IP, k: nat, j: nat)
    requires ValidNet(net) && |ip| == |net.base| && k < |ip| && j <= 8 && net.ones == 8 * k + j
    ensures Contains(net, ip) <==>
      (forall i :: 0 <= i < k ==> ip[i] == net.base[i]) && ip[k] / Pow2(8 - j) == net.base[k] / Pow2(8 - j)
  {
    SizeInBytes(net, k, j);
    ContainsByQuotient(net, ip, k, Pow2(8 - j));
    SameTopBits(ValueOf(ip, k), ip[k], ValueOf(net.base, k), net.base[k], Pow2(8 - j), Pow2(j));
    SameBytes(ip, net.base, k);
  }

  lemma SameQuotient(x: nat, q: nat, w: nat)
    requires w > 0
    ensures x / w == (q * w) / w <==> q * w <= x < q * w + w
  {
    MaskUnique(q * w, q, w);
    var t := MaskedIsMultiple(q * w, w);
    SameMultiple(t, q, w);
    var s := MaskedIsMultiple(x, w);
    if q * w <= x < q * w + w {
      MaskUnique(x, q, w);
      SameMultiple(s, q, w);
    }
  }

  /** An aligned network is a range of byte k under a fixed prefix. */
  lemma ContainsInByte(net: Net, ip: IP, k: nat, j: nat, w: nat, q: nat)
    requires ValidNet(net) && |ip| == |net.base| && k < |ip| && j <= 8 && net.ones == 8 * k + j
    requires w == Pow2(8 - j) && net.base[k] == q * w
    ensures Contains(net, ip) <==> SameBefore(net.base, ip, k) && q * w <= ip[k] < q * w + w
  {
    ContainsByBits(net, ip, k, j);
    SameQuotient(ip[k], q, w);
  }

  predicate SameBefore(a: IP, b: IP, k: nat)
    requires k <= |a| && k <= |b|
  {
    forall i :: 0 <= i < k ==> a[i] == b[i]
  }
}
