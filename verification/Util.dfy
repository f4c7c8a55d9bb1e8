/** Small helpers shared by the modules of the project. */
module Util {

  datatype Option<+T> = None | Some(value: T)

  function Min(a: int, b: int): int { if a <= b then a else b }

  function Max(a: int, b: int): int { if a <= b then b else a }

  /** Smallest integer that is at least a / b. */
  function CeilDiv(a: int, b: int): int
    requires b > 0
  {
    -((-a) / b)
  }

  lemma CeilDivBounds(a: int, b: int)
    requires b > 0
    ensures (CeilDiv(a, b) - 1) * b < a <= CeilDiv(a, b) * b
  {
    var q := (-a) / b;
    assert -a == q * b + (-a) % b;
    assert CeilDiv(a, b) * b == -(q * b);
    assert (CeilDiv(a, b) - 1) * b == -(q * b) - b;
  }

  function Power2(k: nat): nat { if k == 0 then 1 else 2 * Power2(k - 1) }

  lemma {:induction false} Power2Positive(k: nat)
    ensures Power2(k) >= 1
  {
    if k > 0 { Power2Positive(k - 1); }
  }

  function Front<T>(s: seq<T>): seq<T> requires s != [] { s[..|s| - 1] }

  function Last<T>(s: seq<T>): T requires s != [] { s[|s| - 1] }

  function Get<K, V>(m: map<K, V>, k: K): Option<V> {
    if k in m then Some(m[k]) else None
  }

  lemma CeilDivLeast(a: int, b: int, d: int)
    requires b > 0
    ensures d >= CeilDiv(a, b) <==> d * b >= a
  {
    var c := CeilDiv(a, b);
    CeilDivBounds(a, b);
    if d >= c {
      assert d * b >= c * b;
    } else {
      assert d * b <= (c - 1) * b;
    }
  }

  /** Moving the numerator by whole multiples of the divisor moves the ceiling by as many units. */
  lemma CeilDivShift(a: int, b: int, d: int)
    requires b > 0
    ensures CeilDiv(a - d * b, b) == CeilDiv(a, b) - d
  {
    var c, e := CeilDiv(a, b), CeilDiv(a - d * b, b);
    CeilDivLeast(a, b, e + d);
    CeilDivLeast(a - d * b, b, c - d);
    assert (e + d) * b == e * b + d * b;
    assert (c - d) * b == c * b - d * b;
  }
}
