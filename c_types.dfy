/** The C integer types the code relies on, with their widths written out:
    Dafny's integers are unbounded, so every wrap-around is explicit. */
module CTypes {

  /** size_t arithmetic wraps modulo 2^64. */
  const WORD: nat := 0x1_0000_0000_0000_0000

  /** SIZE_MAX, the largest size_t. */
  const SIZE_MAX: nat := WORD - 1

  /** `unsigned` arithmetic wraps modulo 2^32. */
  const UINT: nat := 0x1_0000_0000

  /** An `unsigned` value. */
  type Unsigned = u: int | 0 <= u < UINT

  /** A byte as `fgetc` returns it and as a C string stores it. */
  type Byte = b: int | 0 <= b < 256

  /** A plain `char`, which is signed on the platforms the code targets. */
  type SignedChar = c: int | -128 <= c < 128

  /** The `char` a byte becomes when it is stored in a `char` variable:
      bytes of 0x80 and above read back negative. */
  function AsSignedChar(b: Byte): (c: SignedChar)
    ensures c % 256 == b
    ensures 0 <= c <==> b < 0x80
  {
    if b < 0x80 then b else b - 256
  }

  /** Reducing a summand modulo m early does not change the sum's residue,
      which is why a wrapping accumulator can be reduced at every step. */
  lemma ModAddLeft(a: nat, b: nat, m: nat)
    requires m > 0
    ensures (a % m + b) % m == (a + b) % m
  {
    var q := a / m;
    assert a == m * q + a % m;
    ModShift(a % m + b, q, m);
  }

  lemma {:induction false} ModShift(x: nat, k: nat, m: nat)
    requires m > 0
    ensures (x + m * k) % m == x % m
  {
    if k > 0 {
      ModShift(x, k - 1, m);
      var y := x + m * (k - 1);
      assert x + m * k == y + m;
      assert y == m * (y / m) + y % m;
      assert y + m == m * (y / m + 1) + y % m;
      ModUnique(y + m, m, y / m + 1, y % m);
    }
  }

  /** Division with remainder has one answer. */
  lemma ModUnique(n: nat, m: nat, q: nat, r: nat)
    requires 0 <= r < m && n == m * q + r
    ensures n % m == r
  {
    var q', r' := n / m, n % m;
    assert n == m * q' + r';
    if q' < q {
      MulLe(m, q' + 1, q);
      assert false;
    } else if q' > q {
      MulLe(m, q + 1, q');
      assert false;
    }
  }

  /** Multiplication by a natural number is monotone. */
  lemma {:induction false} MulLe(m: nat, a: nat, b: nat)
    requires a <= b
    ensures m * a <= m * b
    decreases b - a
  {
    if a < b {
      MulLe(m, a, b - 1);
      assert m * b == m * (b - 1) + m;
    }
  }
}
