/** Machine words and the little-endian encoding every format here uses. */
module Words {
  type byte = n: nat | n < 0x100
  type u16 = n: nat | n < 0x1_0000
  type u32 = n: nat | n < 0x1_0000_0000
  type u64 = n: nat | n < 0x1_0000_0000_0000_0000

  type Bytes = seq<byte>

  /** An `f32` is its bit pattern: nothing here computes with one. */
  type Vector = seq<u32>

  /** `f32::is_finite` on the bit pattern: the exponent is not all ones. */
  predicate FiniteBits(x: u32) {
    (x / 0x80_0000) % 0x100 != 0xFF
  }

  predicate Finite(v: Vector) {
    forall i :: 0 <= i < |v| ==> FiniteBits(v[i])
  }

  datatype Option<+T> = None | Some(value: T)
  datatype Result<+T, +E> = Ok(value: T) | Err(error: E)

  function Pow256(n: nat): (p: nat)
    ensures p > 0
  {
    if n == 0 then 1 else 256 * Pow256(n - 1)
  }

  /** `to_le_bytes` at width `n`. */
  function ToLe(value: nat, n: nat): (r: Bytes)
    ensures |r| == n
    decreases value, n
  {
    if n == 0 then [] else [value % 256] + ToLe(value / 256, n - 1)
  }

  /** `from_le_bytes`. */
  function FromLe(bytes: Bytes): nat {
    if bytes == [] then 0 else bytes[0] + 256 * FromLe(bytes[1..])
  }

  lemma {:induction false} FromLeToLe(value: nat, n: nat)
    requires value < Pow256(n)
    ensures FromLe(ToLe(value, n)) == value
  {
    if n > 0 {
      FromLeToLe(value / 256, n - 1);
      assert ToLe(value, n)[1..] == ToLe(value / 256, n - 1);
    }
  }

  /** The bytes from `at` on hold `value` in little-endian order. */
  ghost predicate HoldsLe(b: Bytes, at: nat, n: nat, value: nat) {
    at + n <= |b| && forall i: nat :: i < n ==> b[at + i] == (value / Pow256(i)) % 256
  }

  lemma {:induction false} ToLeDigit(value: nat, n: nat, i: nat)
    requires i < n
    ensures ToLe(value, n)[i] == (value / Pow256(i)) % 256
  {
    if i > 0 {
      ToLeDigit(value / 256, n - 1, i - 1);
      DivTwice(value, Pow256(i - 1));
    } else {
      assert value / 1 == value;
    }
  }

  lemma DivTwice(value: nat, p: nat)
    requires p > 0
    ensures value / 256 / p == value / (256 * p)
  {
    var q, r := value / 256 / p, (value / 256) % p;
    assert value == 256 * (q * p + r) + value % 256;
    var rest := 256 * r + value % 256;
    assert r <= p - 1 && 0 <= rest < 256 * p;
    assert value == q * (256 * p) + rest;
    QuotientIs(value, 256 * p, q, rest);
  }

  lemma QuotientIs(value: nat, d: nat, q: nat, rest: nat)
    requires d > 0 && value == q * d + rest && rest < d
    ensures value / d == q
  {
    var k := value / d;
    assert k * d <= value < (k + 1) * d;
    assert k < q ==> (k + 1) * d <= q * d;
    assert k > q ==> (q + 1) * d <= k * d;
  }

  /** A little-endian field inside a longer text. */
  lemma LeField(b: Bytes, at: nat, n: nat, value: nat)
    requires at + n <= |b| && b[at..at + n] == ToLe(value, n)
    ensures HoldsLe(b, at, n, value)
  {
    hide ToLe, Pow256;
    forall i: nat | i < n
      ensures b[at + i] == (value / Pow256(i)) % 256
    {
      ToLeDigit(value, n, i);
      assert b[at..at + n][i] == b[at + i];
    }
  }

  lemma {:induction false} ToLeFromLe(bytes: Bytes)
    ensures FromLe(bytes) < Pow256(|bytes|)
    ensures ToLe(FromLe(bytes), |bytes|) == bytes
  {
    if bytes != [] {
      ToLeFromLe(bytes[1..]);
      assert FromLe(bytes) % 256 == bytes[0] && FromLe(bytes) / 256 == FromLe(bytes[1..]);
    }
  }

  lemma Widths()
    ensures Pow256(1) == 0x100 && Pow256(2) == 0x1_0000
    ensures Pow256(4) == 0x1_0000_0000 && Pow256(8) == 0x1_0000_0000_0000_0000
  {
    assert Pow256(3) == 0x100_0000;
    assert Pow256(5) == 256 * Pow256(4);
    assert Pow256(6) == 256 * Pow256(5);
    assert Pow256(7) == 256 * Pow256(6);
  }
}
