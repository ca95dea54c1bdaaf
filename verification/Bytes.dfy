/** Bytes, little-endian integers, and operations that may panic. */
module Bytes {

  type byte = b: int | 0 <= b < 256

  type bytes = seq<byte>

  /** The result of an operation that panics on input it cannot handle. */
  datatype Outcome<+T> = Ok(value: T) | Panic {
    predicate IsFailure() {
      Panic?
    }

    function PropagateFailure<U>(): Outcome<U>
      requires Panic?
    {
      Panic
    }

    function Extract(): T
      requires Ok?
    {
      value
    }
  }

  /** An edit in place that ends as specified: with the new bytes, or in a panic. */
  ghost predicate Becomes(spec: Outcome<bytes>, r: Outcome<()>, data: bytes) {
    match spec
    case Panic => r.Panic?
    case Ok(value) => r.Ok? && data == value
  }

  function Pow256(w: nat): (p: nat)
    ensures p >= 1
  {
    if w == 0 then 1 else 256 * Pow256(w - 1)
  }

  lemma Powers()
    ensures Pow256(1) == 256 && Pow256(2) == 0x1_0000 && Pow256(3) == 0x100_0000
    ensures Pow256(4) == 0x1_0000_0000 && Pow256(8) == 0x1_0000_0000_0000_0000
  {
    assert Pow256(1) == 256 * Pow256(0);
    assert Pow256(2) == 256 * Pow256(1);
    assert Pow256(3) == 256 * Pow256(2);
    assert Pow256(4) == 256 * Pow256(3);
    assert Pow256(5) == 256 * Pow256(4);
    assert Pow256(6) == 256 * Pow256(5);
    assert Pow256(7) == 256 * Pow256(6);
  }

  /** The number that little-endian bytes stand for. */
  function FromLE(s: bytes): (n: nat)
    ensures n < Pow256(|s|)
  {
    if s == [] then 0 else s[0] + 256 * FromLE(s[1..])
  }

  lemma TailValue(s: bytes, i: nat)
    ensures i < |s| ==> FromLE(s[i..]) == s[i] + 256 * FromLE(s[i + 1..])
    ensures i + 1 == |s| ==> FromLE(s[i + 1..]) == 0
  {
    assert i < |s| ==> s[i..][1..] == s[i + 1..];
  }

  /** Two, three, four and eight bytes, spelled out. */
  lemma LittleEndian(s: bytes)
    ensures var d: seq<int> := s;
            && (|s| == 2 ==> FromLE(s) == d[0] + 0x100 * d[1])
            && (|s| == 3 ==> FromLE(s) == d[0] + 0x100 * d[1] + 0x1_0000 * d[2])
            && (|s| == 4 ==> FromLE(s) == d[0] + 0x100 * d[1] + 0x1_0000 * d[2] + 0x100_0000 * d[3])
            && (|s| == 8 ==>
                  FromLE(s) == d[0] + 0x100 * d[1] + 0x1_0000 * d[2] + 0x100_0000 * d[3] + 0x1_0000_0000 * d[4]
                               + 0x100_0000_0000 * d[5] + 0x1_0000_0000_0000 * d[6] + 0x100_0000_0000_0000 * d[7])
  {
    if |s| <= 8 {
      TailValue(s, 0);
      TailValue(s, 1);
      TailValue(s, 2);
      TailValue(s, 3);
      TailValue(s, 4);
      TailValue(s, 5);
      TailValue(s, 6);
      TailValue(s, 7);
    }
    assert s[0..] == s;
    hide FromLE;
  }

  /** The low w bytes of a number, least significant first. */
  function ToLE(n: nat, w: nat): (s: bytes)
    ensures |s| == w
  {
    if w == 0 then [] else [n % 256] + ToLE(n / 256, w - 1)
  }

  lemma {:induction false} FromToLE(n: nat, w: nat)
    ensures FromLE(ToLE(n, w)) == n % Pow256(w)
    ensures n < Pow256(w) ==> FromLE(ToLE(n, w)) == n
  {
    if w > 0 {
      FromToLE(n / 256, w - 1);
      var s := ToLE(n, w);
      assert s[1..] == ToLE(n / 256, w - 1);
      Remainder(n, Pow256(w - 1));
      Small(n % 256 + 256 * ((n / 256) % Pow256(w - 1)), n / 256 / Pow256(w - 1), 256 * Pow256(w - 1), n);
    }
    if n < Pow256(w) {
      Small(n, 0, Pow256(w), n);
    }
  }

  lemma Remainder(n: nat, p: nat)
    requires p >= 1
    ensures n == n % 256 + 256 * ((n / 256) % p) + 256 * p * (n / 256 / p)
    ensures n % 256 + 256 * ((n / 256) % p) < 256 * p
  {
    var m := n / 256;
    assert m == p * (m / p) + m % p;
    assert 256 * m == 256 * p * (m / p) + 256 * (m % p);
  }

  /** A remainder is determined by its range. */
  lemma Small(r: int, q: int, d: int, n: int)
    requires 0 <= r < d && n == r + d * q
    ensures n % d == r
  {
    var t := n / d - q;
    assert d * (n / d) + n % d == n;
    assert d * t == r - n % d;
    assert t >= 1 ==> d * t >= d;
    assert t <= -1 ==> d * t <= -d;
  }
}
