/** Divisibility facts shared by the balancers and the merge stream. */
module Divisibility {

  ghost predicate Divides(d: int, x: int)
    requires d > 0
  {
    x % d == 0
  }

  lemma Multiple(d: int, q: int)
    requires d > 0
    ensures (d * q) % d == 0
    ensures (d * q) / d == q
  {
    assert d * q == d * ((d * q) / d) + (d * q) % d;
    var t := q - (d * q) / d;
    assert d * t == (d * q) % d;
    assert t >= 1 ==> d * t >= d;
    assert t <= -1 ==> d * t <= -d;
  }

  /** A common divisor of x and y divides every combination x + m * y. */
  lemma Combination(d: int, x: int, y: int, m: int)
    requires d > 0 && Divides(d, x) && Divides(d, y)
    ensures Divides(d, x + m * y)
  {
    var p, q := x / d, y / d;
    assert x + m * y == d * p + m * (d * q) == d * (p + m * q);
    Multiple(d, p + m * q);
  }

  lemma Sum(d: int, x: int, y: int)
    requires d > 0 && Divides(d, x) && Divides(d, y)
    ensures Divides(d, x + y) && Divides(d, x - y)
  {
    Combination(d, x, y, 1);
    Combination(d, x, y, -1);
  }

  lemma Transitive(d: int, e: int, x: int)
    requires d > 0 && e > 0 && Divides(d, e) && Divides(e, x)
    ensures Divides(d, x)
  {
    var p, q := e / d, x / e;
    assert x == d * p * q == d * (p * q);
    Multiple(d, p * q);
  }

  /** The index of a cyclic scan: i -> (i + 1) % n. */
  lemma CyclicStep(i: int, n: int)
    requires -1 <= i < n && n > 0
    ensures (i + 1) % n == if i + 1 == n then 0 else i + 1
  {
    if i + 1 == n {
      Multiple(n, 1);
    } else {
      assert i + 1 == n * 0 + (i + 1);
    }
  }
}
