/** Fixed-width integers: two's complement bit patterns and the signed numbers they stand for. */
module Ints {

  function Pow2(w: nat): (m: nat)
    ensures m > 0
  {
    if w == 0 then 1 else 2 * Pow2(w - 1)
  }

  /** The `w`-bit pattern of a number of any size. */
  function ToBits(w: nat, n: int): (b: nat)
    ensures b < Pow2(w)
  {
    n % Pow2(w)
  }

  /** The signed number a `w`-bit pattern stands for. */
  function Signed(w: nat, b: nat): int {
    if w == 0 || b < Pow2(w - 1) then b else b - Pow2(w)
  }

  function Wrap(w: nat, n: int): int {
    Signed(w, ToBits(w, n))
  }

  predicate InRange(w: nat, n: int) {
    w > 0 && var half: int := Pow2(w - 1); -half <= n < half
  }

  lemma MulAtLeast(d: int, m: int)
    requires d >= 1 && m > 0
    ensures d * m >= m
  {
    assert (d - 1) * m >= 0;
    assert d * m == (d - 1) * m + m;
  }

  /** `x % m` is the only number in `[0, m)` that differs from `x` by a multiple of `m`. */
  lemma ModUnique(x: int, m: int, k: int, r: int)
    requires m > 0 && 0 <= r < m && x == k * m + r
    ensures x % m == r && x / m == k
  {
    var q, s := x / m, x % m;
    assert x == q * m + s;
    if q > k {
      MulAtLeast(q - k, m);
    } else if q < k {
      MulAtLeast(k - q, m);
    }
  }

  lemma ModShift(x: int, m: int, k: int)
    requires m > 0
    ensures (x + k * m) % m == x % m
  {
    var q := x / m;
    assert x == q * m + x % m;
    assert x + k * m == (q + k) * m + x % m;
    ModUnique(x + k * m, m, q + k, x % m);
  }

  lemma WrapInRange(w: nat, n: int)
    requires w > 0
    ensures InRange(w, Wrap(w, n))
  {
  }

  lemma SignedOfBits(w: nat, n: int)
    requires InRange(w, n)
    ensures Signed(w, ToBits(w, n)) == n
  {
    if n >= 0 {
      ModUnique(n, Pow2(w), 0, n);
    } else {
      ModUnique(n, Pow2(w), -1, n + Pow2(w));
    }
  }

  lemma WrapId(w: nat, n: int)
    requires InRange(w, n)
    ensures Wrap(w, n) == n
  {
    SignedOfBits(w, n);
  }

  lemma BitsOfSigned(w: nat, b: nat)
    requires b < Pow2(w)
    ensures ToBits(w, Signed(w, b)) == b
  {
    if Signed(w, b) == b {
      ModUnique(b, Pow2(w), 0, b);
    } else {
      ModUnique(b - Pow2(w), Pow2(w), -1, b);
    }
  }

  lemma BitsOfWrap(w: nat, n: int)
    ensures ToBits(w, Wrap(w, n)) == ToBits(w, n)
  {
    BitsOfSigned(w, ToBits(w, n));
  }

  lemma DivMod(a: int, m: int)
    requires m > 0
    ensures a == (a / m) * m + a % m
  {
  }

  lemma BitsOfSum(w: nat, a: int, b: int)
    ensures (ToBits(w, a) + ToBits(w, b)) % Pow2(w) == ToBits(w, a + b)
    ensures (ToBits(w, a) - ToBits(w, b)) % Pow2(w) == ToBits(w, a - b)
  {
    hide Pow2;
    var m := Pow2(w);
    var qa, qb, ra, rb := a / m, b / m, a % m, b % m;
    DivMod(a, m);
    DivMod(b, m);
    SumOfParts(qa, ra, qb, rb, m);
    ModShift(ra + rb, m, qa + qb);
    ModShift(ra - rb, m, qa - qb);
  }

  lemma SumOfParts(qa: int, ra: int, qb: int, rb: int, m: int)
    ensures (qa * m + ra) + (qb * m + rb) == (ra + rb) + (qa + qb) * m
    ensures (qa * m + ra) - (qb * m + rb) == (ra - rb) + (qa - qb) * m
  {
  }

  lemma BitsOfProduct(w: nat, a: int, b: int)
    ensures (ToBits(w, a) * ToBits(w, b)) % Pow2(w) == ToBits(w, a * b)
  {
    hide Pow2;
    var m := Pow2(w);
    ProductMod(a, b, a / m, a % m, b / m, b % m, m);
  }

  lemma ProductMod(a: int, b: int, qa: int, ra: int, qb: int, rb: int, m: int)
    requires m > 0 && a == qa * m + ra && b == qb * m + rb
    ensures (ra * rb) % m == (a * b) % m
  {
    ProductOfParts(qa, ra, qb, rb, m);
    Congruent(a * b, ra * rb, (qa * m) * qb + qa * rb + qb * ra, m);
  }

  lemma Congruent(x: int, r: int, k: int, m: int)
    requires m > 0 && x == r + k * m
    ensures r % m == x % m
  {
    ModShift(r, m, k);
  }

  lemma Times(x: int, y: int, z: int)
    ensures (x + y) * z == x * z + y * z && (x * y) * z == x * (y * z) && x * y == y * x
  {
  }

  lemma ProductOfParts(qa: int, ra: int, qb: int, rb: int, m: int)
    ensures (qa * m + ra) * (qb * m + rb) == ra * rb + ((qa * m) * qb + qa * rb + qb * ra) * m
  {
    var x, y := qa * m, qb * m + rb;
    Times(x, ra, y);
    Times(qb * m, rb, x);
    Times(qb * m, rb, ra);
    Times(x, qb, m);
    Times(qa, rb, m);
    Times(qb, ra, m);
    Times(x * qb, qa * rb, m);
    Times(x * qb + qa * rb, qb * ra, m);
    Times(qb, m, x);
    Times(qb, m, ra);
    Times(qa, m, rb);
    Times(m, ra, qb);
    Times(m, rb, qa);
    Times(x, rb, 1);
    Times(ra, rb, 1);
    Times(x, qb * m, 1);
    Times(ra, qb * m, 1);
    assert x * y == x * (qb * m) + x * rb;
    assert ra * y == ra * (qb * m) + ra * rb;
    assert x * (qb * m) == (x * qb) * m;
    assert x * rb == (qa * rb) * m;
    assert ra * (qb * m) == (qb * ra) * m;
  }

  lemma Pow2Split(v: nat, w: nat)
    requires v <= w
    ensures Pow2(w) == Pow2(v) * Pow2(w - v)
  {
    if v < w {
      Pow2Split(v, w - 1);
      assert Pow2(w - v) == 2 * Pow2(w - 1 - v);
    }
  }

  lemma Pow2Mono(v: nat, w: nat)
    requires v <= w
    ensures Pow2(v) <= Pow2(w)
  {
    if v < w {
      Pow2Mono(v, w - 1);
    }
  }

  lemma ModOfMod(n: int, p: int, s: int, m: int)
    requires p > 0 && m > 0 && m == p * s
    ensures (n % m) % p == n % p
  {
    var q, r := n / m, n % m;
    assert n == q * m + r;
    assert q * m == (q * s) * p by {
      assert q * (p * s) == (q * s) * p;
    }
    ModShift(r, p, q * s);
  }

  /** Keeping the low `v` bits of a `w`-bit pattern. */
  lemma TruncatedBits(v: nat, w: nat, n: int)
    requires v <= w
    ensures ToBits(w, n) % Pow2(v) == ToBits(v, n)
  {
    Pow2Split(v, w);
    ModOfMod(n, Pow2(v), Pow2(w - v), Pow2(w));
  }

  /** Copying the sign bit of a `v`-bit pattern upwards. */
  function SignExtend(v: nat, w: nat, b: nat): int {
    if v == 0 || b < Pow2(v - 1) then b else b + Pow2(w) - Pow2(v)
  }

  lemma ExtendedBits(v: nat, w: nat, n: int)
    requires v <= w && InRange(v, n)
    ensures SignExtend(v, w, ToBits(v, n)) == ToBits(w, n)
  {
    Pow2Mono(v, w);
    Pow2Mono(v - 1, w - 1);
    if n >= 0 {
      ModUnique(n, Pow2(v), 0, n);
      ModUnique(n, Pow2(w), 0, n);
    } else {
      ModUnique(n, Pow2(v), -1, n + Pow2(v));
      ModUnique(n, Pow2(w), -1, n + Pow2(w));
    }
  }

  /** A chain of narrowings is the narrowest one. */
  lemma NarrowTwice(v: nat, w: nat, n: int)
    requires v <= w
    ensures Wrap(v, Wrap(w, n)) == Wrap(v, n)
  {
    TruncatedBits(v, w, n);
    TruncatedBits(v, w, Wrap(w, n));
    BitsOfWrap(w, n);
  }

  /** Widening and narrowing back loses nothing. */
  lemma WidenThenNarrow(v: nat, w: nat, n: int)
    requires v <= w && InRange(v, n)
    ensures Wrap(v, Wrap(w, n)) == n
  {
    NarrowTwice(v, w, n);
    WrapId(v, n);
  }

  // Bitwise operations

  datatype BitFn = AndFn | OrFn | XorFn

  function Bit(f: BitFn, a: int, b: int): (r: int)
    requires a in {0, 1} && b in {0, 1}
    ensures r in {0, 1}
  {
    match f
    case AndFn => a * b
    case OrFn => a + b - a * b
    case XorFn => if a == b then 0 else 1
  }

  /** And of two bits is their product, or is at least each and at most one, exclusive or tells them apart. */
  lemma BitTable()
    ensures Bit(AndFn, 0, 0) == 0 && Bit(AndFn, 0, 1) == 0 && Bit(AndFn, 1, 0) == 0 && Bit(AndFn, 1, 1) == 1
    ensures Bit(OrFn, 0, 0) == 0 && Bit(OrFn, 0, 1) == 1 && Bit(OrFn, 1, 0) == 1 && Bit(OrFn, 1, 1) == 1
    ensures Bit(XorFn, 0, 0) == 0 && Bit(XorFn, 0, 1) == 1 && Bit(XorFn, 1, 0) == 1 && Bit(XorFn, 1, 1) == 0
  {
  }

  function Abs(n: int): nat { if n < 0 then -n else n }

  /** The operation on numbers seen as two's complement patterns with no end. */
  function BitwiseInt(f: BitFn, a: int, b: int): int
    decreases Abs(a) + Abs(b)
  {
    if a in {0, -1} && b in {0, -1} then
      -Bit(f, -a, -b)
    else
      2 * BitwiseInt(f, a / 2, b / 2) + Bit(f, a % 2, b % 2)
  }

  /** The operation on the `w` low bits of two patterns. */
  function BitwiseBits(f: BitFn, w: nat, a: nat, b: nat): nat {
    if w == 0 then 0 else 2 * BitwiseBits(f, w - 1, a / 2, b / 2) + Bit(f, a % 2, b % 2)
  }

  lemma BitwiseStep(f: BitFn, a: int, b: int)
    ensures BitwiseInt(f, a, b) == 2 * BitwiseInt(f, a / 2, b / 2) + Bit(f, a % 2, b % 2)
  {
  }

  lemma HalfBits(w: nat, n: int)
    requires w > 0
    ensures ToBits(w, n) / 2 == ToBits(w - 1, n / 2)
    ensures ToBits(w, n) % 2 == n % 2
    ensures ToBits(w, n) == 2 * ToBits(w - 1, n / 2) + n % 2
  {
    var m := Pow2(w - 1);
    var q, r := (n / 2) / m, (n / 2) % m;
    assert n / 2 == q * m + r;
    assert n == q * Pow2(w) + (2 * r + n % 2) by {
      assert n == 2 * (n / 2) + n % 2;
      assert 2 * (q * m) == q * (2 * m);
    }
    ModUnique(n, Pow2(w), q, 2 * r + n % 2);
  }

  lemma {:induction false} BitsOfBitwise(f: BitFn, w: nat, a: int, b: int)
    ensures BitwiseBits(f, w, ToBits(w, a), ToBits(w, b)) == ToBits(w, BitwiseInt(f, a, b))
  {
    if w > 0 {
      var n := BitwiseInt(f, a, b);
      HalfBits(w, a);
      HalfBits(w, b);
      HalfBits(w, n);
      BitwiseStep(f, a, b);
      assert n / 2 == BitwiseInt(f, a / 2, b / 2) && n % 2 == Bit(f, a % 2, b % 2);
      BitsOfBitwise(f, w - 1, a / 2, b / 2);
    }
  }
}
