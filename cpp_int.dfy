/**
 * The C++ integer operators used by the texture and lattice code, on Dafny's
 * unbounded integers: `>>`, `&` and `^` on non-negative operands (every
 * operand in OculusRoomModel.cpp is a pixel or shifted grid coordinate, so
 * none is negative) and the built-in `%`, which truncates toward zero.
 */
module CppInt {

  /** 2 to the power k. */
  function Pow2(k: nat): (r: nat)
    ensures r >= 1
    ensures k >= 1 ==> r % 2 == 0
  {
    if k == 0 then 1 else 2 * Pow2(k - 1)
  }

  /** `a >> k` for a non-negative `a`: the k low bits are dropped, leaving the r with r * 2^k <= a < (r + 1) * 2^k. */
  function ShiftRight(a: nat, k: nat): (r: nat)
    ensures r * Pow2(k) <= a < (r + 1) * Pow2(k)
  {
    var d := Pow2(k);
    DivNonNegative(a, d);
    assert a == d * (a / d) + a % d;
    a / d
  }

  /** A non-negative value divided by a positive one gives a non-negative quotient. */
  lemma DivNonNegative(a: int, d: int)
    requires a >= 0 && d > 0
    ensures a / d >= 0
  {
    NegativeMultiple(d, a / d);
  }

  /** `a & b` for non-negative operands, computed bit by bit from the least significant bit. */
  function BitAnd(a: nat, b: nat): (r: nat)
    ensures r <= a && r <= b
    decreases a
  {
    if a == 0 || b == 0 then 0
    else
      var high := BitAnd(a / 2, b / 2);
      assert high <= a / 2 && high <= b / 2;
      2 * high + (if a % 2 == 1 && b % 2 == 1 then 1 else 0)
  }

  /** `a ^ b` for non-negative operands, computed bit by bit from the least significant bit. */
  function BitXor(a: nat, b: nat): (r: nat)
    ensures r <= a + b
    ensures r % 2 == (a + b) % 2
    decreases a + b
  {
    if a == 0 then b
    else if b == 0 then a
    else
      var high := BitXor(a / 2, b / 2);
      XorStep(a, b, high);
      2 * high + (if a % 2 != b % 2 then 1 else 0)
  }

  /** Putting the low bit of `a ^ b` under the higher bits stays within a + b and has the parity of a + b. */
  lemma XorStep(a: nat, b: nat, high: nat)
    requires high <= a / 2 + b / 2
    ensures 2 * high + (if a % 2 != b % 2 then 1 else 0) <= a + b
    ensures (2 * high + (if a % 2 != b % 2 then 1 else 0)) % 2 == (a + b) % 2
  {
    var low := if a % 2 != b % 2 then 1 else 0;
    var h := a / 2 + b / 2;
    assert a + b == 2 * h + a % 2 + b % 2;
    ModUnique(2 * high + low, 2, high, low);
    if a % 2 == 1 && b % 2 == 1 {
      ModUnique(a + b, 2, h + 1, 0);
    } else {
      ModUnique(a + b, 2, h, low);
    }
  }

  /** C++ `a % b` for a positive divisor: the remainder carries the sign of the dividend. */
  function Rem(a: int, b: int): (r: int)
    requires b > 0
    ensures -b < r < b
    ensures r == 0 || (r < 0 <==> a < 0)
    ensures (a - r) % b == 0
  {
    if a >= 0 then
      ModUnique(a - a % b, b, a / b, 0);
      a % b
    else
      var q, m := (-a) / b, (-a) % b;
      assert a + m == b * -q;
      ModUnique(a + m, b, -q, 0);
      -m
  }

  /** Division by 2p splits into halving and division by p. */
  lemma ModDoubled(x: nat, p: nat)
    requires p >= 1
    ensures x % (2 * p) == 2 * ((x / 2) % p) + x % 2
  {
    var q, s := (x / 2) / p, (x / 2) % p;
    assert x / 2 == p * q + s;
    assert x == 2 * p * q + (2 * s + x % 2);
    ModUnique(x, 2 * p, q, 2 * s + x % 2);
  }

  /** The remainder is the only value in [0, d) that differs from x by a multiple of d. */
  lemma ModUnique(x: int, d: int, q: int, r: int)
    requires d > 0 && 0 <= r < d && x == d * q + r
    ensures x % d == r && x / d == q
  {
    var q', r' := x / d, x % d;
    assert d * q + r == d * q' + r';
    if q' < q {
      MulAtLeast(d, q - q');
    } else if q' > q {
      MulAtLeast(d, q' - q);
    }
  }

  /** A positive multiple of d is at least d. */
  lemma MulAtLeast(d: int, k: int)
    requires d > 0 && k >= 1
    ensures d * k >= d
  {
    assert d * k == d * (k - 1) + d;
  }

  /** A negative multiple of d is at most -d. */
  lemma NegativeMultiple(d: int, q: int)
    requires d > 0
    ensures q < 0 ==> d * q <= -d
  {
    if q < 0 {
      MulAtLeast(d, -q);
    }
  }

  /** Masking with 2^k - 1 keeps the k low bits: `x & (2^k - 1) == x mod 2^k`. */
  lemma {:induction false} BitAndLowMask(x: nat, k: nat)
    ensures BitAnd(x, Pow2(k) - 1) == x % Pow2(k)
  {
    if k == 0 {
    } else if x == 0 {
    } else {
      var m := Pow2(k) - 1;
      assert m / 2 == Pow2(k - 1) - 1 && m % 2 == 1;
      BitAndLowMask(x / 2, k - 1);
      ModDoubled(x, Pow2(k - 1));
    }
  }

  /** `x & 1` is the low bit of x. */
  lemma BitAndOne(x: nat)
    ensures BitAnd(x, 1) == x % 2
  {
    BitAndLowMask(x, 1);
  }

  /** `(a ^ b) & 1` is 1 exactly when the low bits of a and b differ. */
  lemma XorLowBit(a: nat, b: nat)
    ensures BitAnd(BitXor(a, b), 1) == (if a % 2 != b % 2 then 1 else 0)
  {
    BitAndOne(BitXor(a, b));
  }

  /** C++ `%` agrees with Dafny's Euclidean `%` on a non-negative dividend. */
  lemma RemOfNonNegative(a: int, b: int)
    requires a >= 0 && b > 0
    ensures Rem(a, b) == a % b
  {
  }

  /** On a negative odd dividend the two remainders disagree: C++ gives -1, Dafny gives 1. */
  lemma RemOfNegative()
    ensures Rem(-1, 2) == -1 && -1 % 2 == 1
  {
  }
}
