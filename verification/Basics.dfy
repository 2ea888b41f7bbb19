/** Notions every part uses: optional values and 64-bit integers. */
module Basics {

  datatype Option<+T> = None | Some(value: T)

  const TWO63 := 0x8000_0000_0000_0000
  const TWO64 := 0x1_0000_0000_0000_0000
  const MAX_INT64 := TWO63 - 1

  /** Two's complement wrap-around of 64-bit arithmetic. */
  function Int64(x: int): (r: int)
    ensures -TWO63 <= r <= MAX_INT64
    ensures -TWO63 <= x <= MAX_INT64 ==> r == x
    ensures (x - r) % TWO64 == 0
  {
    var m := x % TWO64;
    if m < TWO63 then m else m - TWO64
  }

  lemma SubsetSize<T>(a: set<T>, b: set<T>)
    requires a <= b
    ensures |a| <= |b|
  {
    assert b == a + (b - a);
  }

  lemma Regroup<T>(a: seq<T>, b: seq<T>, c: seq<T>)
    ensures a + (b + c) == (a + b) + c && [] + c == c
  {
  }
}
