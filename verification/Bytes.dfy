/** Byte strings, fixed-width integers and the hash function.

    The hash function is a parameter of everything that uses it: results hold for every
    function from byte strings to 32-byte values, Keccak-256 among them. */
module Bytes {
  type byte = x: int | 0 <= x < 256
  type Bytes = seq<byte>
  type Hash = h: Bytes | |h| == 32 witness seq(32, _ => 0)
  type Address = a: Bytes | |a| == 20 witness seq(20, _ => 0)
  type u32 = x: int | 0 <= x < 0x1_0000_0000
  type u64 = x: int | 0 <= x < U64
  type Keccak = Bytes -> Hash

  const U64: int := 0x1_0000_0000_0000_0000

  datatype Option<T> = None | Some(value: T)
  datatype Result<T> = Ok(value: T) | Err

  /** n as w big-endian bytes; higher digits are dropped. */
  function BigEndian(n: nat, w: nat): (r: Bytes)
    ensures |r| == w
  {
    if w == 0 then [] else BigEndian(n / 256, w - 1) + [n % 256]
  }

  function Pow256(w: nat): (r: nat)
    ensures r > 0
  {
    if w == 0 then 1 else 256 * Pow256(w - 1)
  }

  lemma {:induction false} BigEndianInjective(n: nat, m: nat, w: nat)
    requires n < Pow256(w) && m < Pow256(w)
    requires BigEndian(n, w) == BigEndian(m, w)
    ensures n == m
  {
    if w > 0 {
      var a, b := BigEndian(n, w), BigEndian(m, w);
      assert a[..w-1] == BigEndian(n / 256, w - 1) && b[..w-1] == BigEndian(m / 256, w - 1);
      assert a[w-1] == n % 256 && b[w-1] == m % 256;
      BigEndianInjective(n / 256, m / 256, w - 1);
    }
  }

  lemma {:induction false} Pow256Monotone(v: nat, w: nat)
    requires v <= w
    ensures Pow256(v) <= Pow256(w)
    decreases w - v
  {
    if v < w { Pow256Monotone(v + 1, w); }
  }

  lemma Word32Injective(n: nat, m: nat)
    requires n < U64 && m < U64
    requires BigEndian(n, 32) == BigEndian(m, 32)
    ensures n == m
  {
    assert Pow256(8) == U64;
    Pow256Monotone(8, 32);
    BigEndianInjective(n, m, 32);
  }

  lemma MultiplesApart(d: int, p: int, q: int)
    requires d > 0
    ensures p < q ==> d * p + d <= d * q
  {
    if p < q { assert d * (q - p - 1) >= 0; }
  }

  lemma DivisionIs(n: int, d: int, q: int, r: int)
    requires 0 <= r < d && n == d * q + r
    ensures n / d == q
  {
    MultiplesApart(d, n / d, q);
    MultiplesApart(d, q, n / d);
  }

  lemma DivideTwice(n: nat, a: nat, b: nat)
    requires a > 0 && b > 0
    ensures a * b > 0 && (n / a) / b == n / (a * b)
  {
    var m, q := n / a, (n / a) / b;
    var r := a * (m % b) + n % a;
    assert m % b <= b - 1;
    assert a * (m % b) <= a * (b - 1);
    assert n == a * m + n % a && m == b * q + m % b;
    assert a * (b * q + m % b) == (a * b) * q + a * (m % b);
    assert a * (b - 1) == a * b - a;
    DivisionIs(n, a * b, q, r);
  }

  /** Byte i is digit w - 1 - i of n to base 256: the most significant digit comes first. */
  lemma {:induction false} BigEndianAt(n: nat, w: nat, i: nat)
    requires i < w
    ensures BigEndian(n, w)[i] == n / Pow256(w - 1 - i) % 256
  {
    if i < w - 1 {
      BigEndianAt(n / 256, w - 1, i);
      DivideTwice(n, 256, Pow256(w - 2 - i));
    }
  }

  /** The 32 digits of n to base 256, the most significant first. */
  predicate IsWord(s: Bytes, n: nat) {
    |s| == 32 && forall j | 0 <= j < 32 :: s[j] == n / Pow256(31 - j) % 256
  }

  lemma BigEndianIsWord(n: nat)
    ensures IsWord(BigEndian(n, 32), n)
  {
    forall j | 0 <= j < 32 ensures BigEndian(n, 32)[j] == n / Pow256(31 - j) % 256 { BigEndianAt(n, 32, j); }
  }
}
