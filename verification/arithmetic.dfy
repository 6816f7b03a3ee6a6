/**
 64-bit division of lib/arithmetic.c, built from the x86 instruction that
 divides 64 bits by 32 and traps when the quotient needs more than 32 bits.

 Machine words are integers in range; every wrap-around of the C code is written
 out with Wrap64.
 */
module Arithmetic {
  const B32: nat := 0x1_0000_0000
  const B64: nat := 0x1_0000_0000_0000_0000

  type U32 = n: int | 0 <= n < B32
  type U64 = n: int | 0 <= n < B64
  type I64 = n: int | -0x8000_0000_0000_0000 <= n < 0x8000_0000_0000_0000

  const INT64_MIN: I64 := -0x8000_0000_0000_0000

  /** Conversion to uint64_t. */
  function Wrap64(x: int): U64 { x % B64 }

  /** Conversion to uint32_t. */
  function Wrap32(x: int): U32 { x % B32 }

  /** Conversion to int64_t and to int32_t (two's complement). */
  function ToI64(x: int): I64 {
    var u := x % B64;
    if u >= 0x8000_0000_0000_0000 then u - B64 else u
  }

  function ToI32(x: int): int {
    var u := x % B32;
    if u >= 0x8000_0000 then u - B32 else u
  }

  function Pow2(n: nat): (p: nat)
    ensures p > 0
  {
    if n == 0 then 1 else 2 * Pow2(n - 1)
  }

  /** divl(): the precondition is the absence of a divide error. */
  method Divl(n: U64, d: U32) returns (q: U32)
    requires d != 0 && n / d < B32
    ensures q == n / d
  {
    q := n / d;
  }

  // ---------------------------------------------------------------------
  // nlz()
  // ---------------------------------------------------------------------

  /** n is the number of leading zeros of the 32-bit word x. */
  ghost predicate IsNlz(x: U32, n: int) {
    0 <= n < 32 && Pow2(31 - n) <= x < Pow2(32 - n)
  }

  lemma {:induction false} Pow2Add(a: nat, b: nat)
    ensures Pow2(a + b) == Pow2(a) * Pow2(b)
  {
    if a == 0 {
    } else {
      Pow2Add(a - 1, b);
      assert Pow2(a + b) == 2 * Pow2(a - 1 + b);
    }
  }

  lemma Pow2Values()
    ensures Pow2(1) == 2 && Pow2(2) == 4 && Pow2(4) == 16 && Pow2(8) == 0x100 && Pow2(16) == 0x1_0000
    ensures Pow2(31) == 0x8000_0000 && Pow2(32) == B32 && Pow2(63) == 0x8000_0000_0000_0000 && Pow2(64) == B64
  {
    assert Pow2(4) == 16 by { Pow2Add(2, 2); }
    Pow2Add(4, 4);
    Pow2Add(8, 8);
    Pow2Add(16, 16);
    Pow2Add(32, 32);
    assert Pow2(32) == 2 * Pow2(31);
    assert Pow2(64) == 2 * Pow2(63);
  }

  /** x is x0 shifted left by n without losing a bit. */
  ghost predicate Shifted(x0: U32, x: U32, n: nat) {
    x == x0 * Pow2(n)
  }

  /** Shifting left by k more loses no bit if the top k bits are clear. */
  lemma ShiftMore(x0: U32, x: U32, n: nat, k: nat, p: nat)
    requires Shifted(x0, x, n) && p == Pow2(k) && x * p < B32
    ensures Wrap32(x * p) == x * p && Shifted(x0, Wrap32(x * p), n + k)
  {
    hide Pow2;
    Pow2Add(n, k);
    MulAssoc(x0, Pow2(n), p);
    Wrap32Small(x * p);
  }

  lemma Wrap32Small(x: int)
    requires 0 <= x < B32
    ensures Wrap32(x) == x
  {
  }

  lemma MulAssoc(a: int, b: int, c: int)
    ensures a * b * c == a * (b * c)
  {
  }

  lemma ShiftedNone(x: U32)
    ensures Shifted(x, x, 0)
  {
  }

  method Nlz(x0: U32) returns (n: int)
    requires x0 != 0
    ensures IsNlz(x0, n)
  {
    hide Pow2, Shifted, IsNlz, Wrap32;
    Pow2Values();
    n := 0;
    var x: U32 := x0;
    ShiftedNone(x0);
    if x <= 0x0000FFFF {
      ShiftMore(x0, x, n, 16, 0x1_0000);
      n := n + 16;
      x := Wrap32(x * 0x1_0000);
    }
    assert Shifted(x0, x, n) && 0 <= n <= 16;
    if x <= 0x00FFFFFF {
      ShiftMore(x0, x, n, 8, 0x100);
      n := n + 8;
      x := Wrap32(x * 0x100);
    }
    assert Shifted(x0, x, n) && 0 <= n <= 24 && x >= 0x0100_0000;
    if x <= 0x0FFFFFFF {
      ShiftMore(x0, x, n, 4, 16);
      n := n + 4;
      x := Wrap32(x * 16);
    }
    assert Shifted(x0, x, n) && 0 <= n <= 28 && x >= 0x1000_0000;
    if x <= 0x3FFFFFFF {
      ShiftMore(x0, x, n, 2, 4);
      n := n + 2;
      x := Wrap32(x * 4);
    }
    assert Shifted(x0, x, n) && 0 <= n <= 30 && x >= 0x4000_0000;
    if x <= 0x7FFFFFFF {
      ShiftMore(x0, x, n, 1, 2);
      n := n + 1;
      ShiftedNlz(x0, Wrap32(x * 2), n);
    } else {
      ShiftedNlz(x0, x, n);
    }
  }

  /** A word whose top bit is set after a shift by n has n leading zeros. */
  lemma ShiftedNlz(x: U32, top: U32, n: int)
    requires 0 <= n < 32 && Shifted(x, top, n) && 0x8000_0000 <= top
    ensures IsNlz(x, n)
  {
    Pow2Values();
    Pow2Add(31 - n, n);
    Pow2Add(32 - n, n);
    if x < Pow2(31 - n) { MulLess(x, Pow2(31 - n), Pow2(n)); }
    if x >= Pow2(32 - n) { MulLessEq(Pow2(32 - n), x, Pow2(n)); }
  }

  lemma MulLess(a: int, b: int, c: int)
    requires a < b && c > 0
    ensures a * c < b * c
  {
  }

  lemma MulLessEq(a: int, b: int, c: int)
    requires a <= b && c >= 0
    ensures a * c <= b * c
  {
  }

  /** The number of leading zeros is unique. */
  lemma NlzUnique(x: U32, n: int, m: int)
    requires IsNlz(x, n) && IsNlz(x, m)
    ensures n == m
  {
    if n < m { Pow2Mono(32 - m, 31 - n); }
    if m < n { Pow2Mono(32 - n, 31 - m); }
  }

  lemma {:induction false} Pow2Mono(a: nat, b: nat)
    requires a <= b
    ensures Pow2(a) <= Pow2(b)
  {
    if a < b { Pow2Mono(a, b - 1); }
  }

  // ---------------------------------------------------------------------
  // udiv64()
  // ---------------------------------------------------------------------

  lemma Wrap64Small(x: int)
    requires 0 <= x < B64
    ensures Wrap64(x) == x
  {
  }

  /** The two-step division when the divisor fits in 32 bits: the second divl()
      cannot trap, and the sum is the quotient. */
  lemma SmallDivisor(n: U64, d: U32, r: int)
    requires d != 0 && r == B32 * (n / B32 % d) + n % B32
    ensures 0 <= r < B64 && 0 <= r / d < B32 && 0 <= n / d < B64
    ensures r / d + B32 * (n / B32 / d) == n / d
  {
    var n1 := n / B32;
    assert n1 == d * (n1 / d) + n1 % d;
    assert n == r + d * (B32 * (n1 / d));
    DivShift(r, B32 * (n1 / d), d);
    assert r < B32 * d;
    DivBound(r, B32, d);
    DivLe(n, d);
    DivLe(r, d);
  }

  /** q is the floor of n / d. */
  lemma DivUnique(n: int, d: int, q: int)
    requires d > 0 && q * d <= n < (q + 1) * d
    ensures n / d == q
  {
    var r := n - q * d;
    if n / d > q { MulLessEq(q + 1, n / d, d); }
    if n / d < q { MulLessEq(n / d + 1, q, d); }
  }

  lemma DivProperty(n: int, d: int)
    requires d > 0
    ensures (n / d) * d <= n < (n / d + 1) * d
  {
  }

  lemma DivShift(r: int, k: int, d: int)
    requires d > 0
    ensures (r + d * k) / d == r / d + k
  {
    DivProperty(r, d);
    var q := r / d + k;
    assert q * d == (r / d) * d + d * k;
    assert (q + 1) * d == (r / d + 1) * d + d * k;
    DivUnique(r + d * k, d, q);
  }

  lemma DivBound(r: int, b: int, d: int)
    requires d > 0 && r < b * d
    ensures r / d < b
  {
    DivProperty(r, d);
    if r / d >= b { MulLessEq(b, r / d, d); }
  }

  lemma DivLe(n: int, d: int)
    requires d > 0 && n >= 0
    ensures 0 <= n / d <= n
  {
    DivProperty(n, d);
    if n / d < 0 { MulLessEq(n / d + 1, 0, d); }
    if n / d > n { MulLessEq(1, d, n / d); }
  }

  /** Dividing twice divides by the product. */
  lemma DivDiv(n: int, a: int, b: int)
    requires a > 0 && b > 0 && n >= 0
    ensures a * b > 0 && (n / a) / b == n / (a * b)
  {
    var q := (n / a) / b;
    DivProperty(n, a);
    DivProperty(n / a, b);
    MulLessEq(q * b, n / a, a);
    MulLessEq(n / a + 1, (q + 1) * b, a);
    assert q * b * a == q * (a * b);
    assert (q + 1) * b * a == (q + 1) * (a * b);
    DivUnique(n, a * b, q);
  }

  /** What the shifted estimate is made of: P = 2^s, R = 2^(32-s), the top word v
      of d << s, and the truncated divisor D = v * R. */
  ghost predicate Estimate(d: U64, s: int, v: int) {
    && 0 <= s < 32
    && v == (d * Pow2(s)) / B32
    && 0x8000_0000 <= v < B32
    && d * Pow2(s) < B64
  }

  /** Scaling a divisor whose high word has its top bit at 31 - s. */
  lemma Normalise(d: int, d1: int, b: int, lo: int, hi: int, P: int)
    requires P > 0 && b > 0 && d1 * b <= d < (d1 + 1) * b && lo <= d1 < hi
    ensures lo * P * b <= d * P < hi * P * b
  {
    MulLessEq(lo, d1, P);
    MulLessEq(d1 + 1, hi, P);
    MulLessEq(lo * P, d1 * P, b);
    MulLessEq((d1 + 1) * P, hi * P, b);
    MulLessEq(d1 * b, d, P);
    MulLess(d, (d1 + 1) * b, P);
    Rearrange(d1, b, P);
    Rearrange(d1 + 1, b, P);
  }

  lemma Rearrange(a: int, b: int, c: int)
    ensures a * b * c == a * c * b
  {
  }

  lemma EstimateOk(d: U64, s: int)
    requires d >= B32 && IsNlz(d / B32, s)
    ensures Estimate(d, s, (d * Pow2(s)) / B32)
  {
    Pow2Values();
    DivProperty(d, B32);
    Pow2Add(31 - s, s);
    Pow2Add(32 - s, s);
    Normalise(d, d / B32, B32, Pow2(31 - s), Pow2(32 - s), Pow2(s));
    TopWord(d * Pow2(s));
  }

  lemma TopWord(x: int)
    requires 0x8000_0000 * B32 <= x < B32 * B32
    ensures 0x8000_0000 <= x / B32 < B32
  {
  }

  lemma Truncate(d: int, P: int, R: int, v: int)
    requires P > 0 && v * (P * R) <= d * P < (v + 1) * (P * R)
    ensures v * R <= d < (v + 1) * R
  {
    assert v * (P * R) == v * R * P;
    assert (v + 1) * (P * R) == (v + 1) * R * P;
    if d < v * R { MulLess(d, v * R, P); }
    if d >= (v + 1) * R { MulLessEq((v + 1) * R, d, P); }
  }

  /** D <= d < D + R. */
  lemma TruncatedDivisor(d: U64, s: int, v: int)
    requires Estimate(d, s, v)
    ensures v * Pow2(32 - s) <= d < (v + 1) * Pow2(32 - s)
  {
    Pow2Values();
    Pow2Add(s, 32 - s);
    DivProperty(d * Pow2(s), B32);
    Truncate(d, Pow2(s), Pow2(32 - s), v);
  }

  /** The quotient is below 2 * P, because d is at least 2^31 * R. */
  lemma QuotientSmall(n: int, d: int, P: int, R: int, v: int, Q: int)
    requires n < B64 && P > 0 && R >= 2 && P * R == B32
    requires v >= 0x8000_0000 && v * R <= d && Q * d <= n
    ensures Q < 2 * P
  {
    MulLessEq(0x8000_0000, v, R);
    MulLessEq(0x8000_0000 * R, d, 2 * P);
    Regroup(0x8000_0000, R, 2 * P);
    assert R * (2 * P) == 2 * B32;
    MulLessEqIf(2 * P, Q, d);
  }

  lemma MulLessEqIf(a: int, b: int, c: int)
    requires c >= 0
    ensures a <= b ==> a * c <= b * c
  {
    if a <= b { MulLessEq(a, b, c); }
  }

  lemma Regroup(a: int, b: int, c: int)
    ensures a * b * c == a * (b * c) && a * b == b * a && (a * b) * c == c * (a * b)
  {
  }

  /** The error e of the truncated divisor D, Q + 1 times, stays within D. */
  lemma ErrorSmall(P: int, R: int, v: int, Q: int, e: int)
    requires P > 0 && R >= 2 && P * R == B32 && v >= 0x8000_0000 && 0 <= e < R && Q < 2 * P
    ensures (Q + 1) * e <= v * R
  {
    ErrorFits(P, R, v);
    if Q + 1 <= 0 {
      MulLessEq(Q + 1, 0, e);
    } else {
      MulLessEq(e, R - 1, Q + 1);
      MulLessEq(Q + 1, 2 * P, R - 1);
      TwoLess(P, R);
    }
  }

  lemma TwoLess(P: int, R: int)
    ensures 2 * P * (R - 1) == 2 * (P * R) - 2 * P
  {
  }

  lemma Spread(Q: int, D: int, e: int)
    ensures (Q + 1) * (D + e) == (Q + 1) * D + (Q + 1) * e && (Q + 2) * D == (Q + 1) * D + D
  {
  }

  /** The heart of the proof: if D = v * R with v at least 2^31 under-approximates
      d by less than R, and n has 64 bits, then n / D exceeds n / d by at most 1.
      P * R = 2^32; d - D is the truncation error and Q the true quotient. */
  lemma EstimateError(n: int, d: int, P: int, R: int, v: int, Q: int)
    requires 0 <= n < B64 && P > 0 && R >= 2 && P * R == B32
    requires v >= 0x8000_0000 && v * R <= d < (v + 1) * R
    requires Q * d <= n < (Q + 1) * d
    ensures n < (Q + 2) * (v * R)
  {
    QuotientSmall(n, d, P, R, v, Q);
    ErrorSmall(P, R, v, Q, d - v * R);
    Spread(Q, v * R, d - v * R);
  }

  /** 2 * P * (R - 1) = 2^33 - 2 * P stays within D = v * R. */
  lemma ErrorFits(P: int, R: int, v: int)
    requires P > 0 && R >= 2 && P * R == B32 && v >= 0x8000_0000
    ensures 2 * B32 - 2 * P <= v * R
  {
    MulLessEq(0x8000_0000, v, R);
    if R == 2 {
      assert P == 0x8000_0000;
    } else if R == 3 {
      assert false;
    }
  }

  /** The value divl (n >> 1, v) >> (31 - s) is n / D. */
  lemma ShiftedQuotient(n: U64, s: int, v: int)
    requires 0 <= s < 32 && v > 0
    ensures v * Pow2(32 - s) > 0 && (n / 2 / v) / Pow2(31 - s) == n / (v * Pow2(32 - s))
  {
    DivDiv(n, 2, v);
    DivDiv(n, 2 * v, Pow2(31 - s));
    assert 2 * v * Pow2(31 - s) == v * (2 * Pow2(31 - s));
  }

  /** The estimate is the quotient or one more. */
  lemma EstimateWithinOne(n: U64, d: U64, s: int, v: int)
    requires Estimate(d, s, v)
    ensures v * Pow2(32 - s) > 0 && d > 0
    ensures n / d <= n / (v * Pow2(32 - s)) <= n / d + 1
  {
    Pow2Values();
    Pow2Add(s, 32 - s);
    TruncatedDivisor(d, s, v);
    var R, D, Q := Pow2(32 - s), v * Pow2(32 - s), n / d;
    MulLessEq(1, v, R);
    assert R >= 2 by { assert R == 2 * Pow2(31 - s); }
    DivProperty(n, d);
    EstimateError(n, d, Pow2(s), R, v, Q);
    DivBound(n, Q + 2, D);
    MulLessEq2(D, d, Q, n);
    DivAtLeast(n, Q, D);
  }

  lemma MulLessEq2(D: int, d: int, Q: int, n: U64)
    requires D <= d && 0 < d && Q == n / d
    ensures Q * D <= n
  {
    DivProperty(n, d);
    DivLe(n, d);
    MulLessEq(D, d, Q);
  }

  lemma DivAtLeast(n: int, q: int, d: int)
    requires d > 0 && q * d <= n
    ensures q <= n / d
  {
    DivProperty(n, d);
    if n / d < q { MulLessEq(n / d + 1, q, d); }
  }

  /** The final comparison, in wrapping arithmetic, tells the two cases apart. */
  lemma Correction(n: U64, d: U64, q: int)
    requires d > 0 && n / d <= q <= n / d + 1 && n >= d
    ensures q >= 1
    ensures (if Wrap64(n - (q - 1) * d) < d then q - 1 else q) == n / d
  {
    var Q := n / d;
    DivProperty(n, d);
    DivAtLeast(n, 1, d);
    if q == Q {
      assert n - (q - 1) * d == n - Q * d + d;
      MulLessEq(1, Q, d);
    } else {
      assert n - (q - 1) * d == n - Q * d;
    }
  }

  /** The value of C's expression  q = divl (n >> 1, (d << s) >> 32) >> (31 - s). */
  function Guess(n: U64, s: int, v: U32): int
    requires 0 <= s < 32 && v != 0
  {
    (n / 2 / v) / Pow2(31 - s)
  }

  /** C's expression  n - (q - 1) * d < d ? q - 1 : q. */
  function Corrected(n: U64, d: U64, q: int): int {
    if Wrap64(n - Wrap64((q - 1) * d)) < d then q - 1 else q
  }

  lemma GuessCorrected(n: U64, d: U64, s: int, v: U32)
    requires n >= d && Estimate(d, s, v)
    ensures Guess(n, s, v) >= 1 && Corrected(n, d, Guess(n, s, v)) == n / d
  {
    ShiftedQuotient(n, s, v);
    EstimateWithinOne(n, d, s, v);
    var q := Guess(n, s, v);
    Correction(n, d, q);
    WrapProduct(n, q - 1, d);
  }

  lemma NoTrap(n: U64, v: U32)
    requires v >= 0x8000_0000
    ensures 0 <= n / 2 / v < B32
  {
    DivBound(n / 2, B32, v);
    DivLe(n / 2, v);
  }

  /** The upper word of d << s. */
  function Top(d: U64, s: nat): (v: U32) {
    Wrap64(d * Pow2(s)) / B32
  }

  /** The division by a divisor of more than 32 bits: no lost bit in the shift, no
      trap, and the corrected guess is exact. */
  lemma LargeDivisor(n: U64, d: U64, s: int)
    requires n >= d >= B32 && IsNlz(d / B32, s)
    ensures Wrap64(d * Pow2(s)) == d * Pow2(s)
    ensures var v := Top(d, s);
            && 0 < v < B32 && 0 <= n / 2 / v < B32
            && 1 <= Guess(n, s, v) && Corrected(n, d, Guess(n, s, v)) == n / d
  {
    EstimateOk(d, s);
    Wrap64Small(d * Pow2(s));
    var v := (d * Pow2(s)) / B32;
    NoTrap(n, v);
    GuessCorrected(n, d, s, v);
  }

  /** The low word of the dividend with what the first division left above it. */
  function Carried(n: U64, d: U32): (r: U64)
    requires d != 0
  {
    Wrap64(B32 * (n / B32 % d) + Wrap32(n))
  }

  lemma CarriedFits(n: U64, d: U32)
    requires d != 0
    ensures Carried(n, d) / d < B32 && 0 <= n / d < B64
    ensures Carried(n, d) / d + B32 * (n / B32 / d) == n / d
  {
    hide Wrap64;
    var r := B32 * (n / B32 % d) + n % B32;
    SmallDivisor(n, d, r);
    Wrap64Small(r);
  }

  lemma WrapSum(low: int, t: int, q: int)
    requires low + t == q && 0 <= q < B64
    ensures Wrap64(low + t) == q
  {
    Wrap64Small(q);
  }

  /** The first branch of udiv64(): the two-step division. */
  method DivideBySmall(n: U64, d: U32) returns (q: U64)
    requires 0 < d
    ensures q == n / d
  {
    hide Wrap64, Carried;
    var r := Carried(n, d);
    CarriedFits(n, d);
    var low := Divl(r, d);
    WrapSum(low, B32 * (n / B32 / d), n / d);
    q := Wrap64(low + B32 * (n / B32 / d));
  }

  /** The guess that the final comparison corrects. */
  ghost predicate GoodGuess(n: U64, d: U64, q: int)
    requires d != 0
  {
    1 <= q < B64 && Corrected(n, d, q) == n / d
  }

  /** What the division by v of half the dividend leads to. */
  lemma GuessIsGood(n: U64, d: U64, s: int, e: U32)
    requires n >= d >= B32 && IsNlz(d / B32, s)
    requires Top(d, s) != 0 && e == n / 2 / Top(d, s)
    ensures Pow2(31 - s) > 0 && GoodGuess(n, d, e / Pow2(31 - s))
  {
    LargeDivisor(n, d, s);
    DivLe(e, Pow2(31 - s));
  }

  lemma TopFits(n: U64, d: U64, s: int)
    requires n >= d >= B32 && IsNlz(d / B32, s)
    ensures 0 <= s < 32 && Top(d, s) != 0 && 0 <= n / 2 / Top(d, s) < B32
  {
    LargeDivisor(n, d, s);
  }

  /** Normalise the divisor, divide once and scale. */
  method EstimateQuotient(n: U64, d: U64) returns (q0: U64)
    requires n >= d >= B32
    ensures GoodGuess(n, d, q0)
  {
    hide Pow2, IsNlz, Top, GoodGuess;
    var s := Nlz(d / B32);
    TopFits(n, d, s);
    var v := Top(d, s);
    var e := Divl(n / 2, v);
    GuessIsGood(n, d, s, e);
    DivLe(e, Pow2(31 - s));
    q0 := e / Pow2(31 - s);
  }

  /** udiv64(): for every n and every d other than 0 the exact quotient; the calls
      of Divl cannot trap. */
  method Udiv64(n: U64, d: U64) returns (q: U64)
    requires d != 0
    ensures q == n / d
  {
    if d / B32 == 0 {
      q := DivideBySmall(n, Wrap32(d));
    } else if n < d {
      SmallMod(n, d);
      q := 0;
    } else {
      var q0 := EstimateQuotient(n, d);
      q := Corrected(n, d, q0);
    }
  }

  /** Wrapping the product first makes no difference to the wrapped difference. */
  lemma WrapProduct(n: int, q: int, d: int)
    ensures Wrap64(n - Wrap64(q * d)) == Wrap64(n - q * d)
  {
    WrapDifference(n, q * d);
  }

  lemma ModStep(x: int)
    ensures (x + B64) % B64 == x % B64
  {
  }

  lemma WrapDifference(n: int, x: int)
    ensures Wrap64(n - Wrap64(x)) == Wrap64(n - x)
  {
    var k := x / B64;
    assert x == B64 * k + Wrap64(x);
    assert n - Wrap64(x) == n - x + B64 * k;
    ModShift(n - x, k);
  }

  lemma {:induction false} ModShift(a: int, k: int)
    ensures (a + B64 * k) % B64 == a % B64
    decreases if k < 0 then -k else k
  {
    if k > 0 {
      ModShift(a, k - 1);
      ModStep(a + B64 * (k - 1));
    } else if k < 0 {
      ModShift(a, k + 1);
      ModStep(a + B64 * k);
    }
  }

  // ---------------------------------------------------------------------
  // umod64(), sdiv64(), smod64()
  // ---------------------------------------------------------------------

  /** umod64() returns a uint32_t: the low 32 bits of the remainder. */
  method Umod64(n: U64, d: U64) returns (r: U32)
    requires d != 0
    ensures r == Wrap32(n % d)
  {
    hide Wrap32, Wrap64;
    var q := Udiv64(n, d);
    r := Wrap32(Wrap64(n - Wrap64(d * q)));
    RemainderLeft(n, d, q);
  }

  lemma RemainderIs(n: int, d: int)
    requires d > 0
    ensures n - d * (n / d) == n % d && 0 <= n % d < d
  {
  }

  lemma RemainderLeft(n: U64, d: U64, q: U64)
    requires d != 0 && q == n / d
    ensures Wrap32(Wrap64(n - Wrap64(d * q))) == Wrap32(n % d)
  {
    hide Wrap32, Wrap64;
    RemainderIs(n, d);
    WrapDifference(n, d * q);
    Wrap64Small(n % d);
  }

  /** Exact for all n if and only if the divisor is at most 2^32. */
  lemma Umod64Exact(d: U64)
    requires d != 0
    ensures (forall n: U64 :: Wrap32(n % d) == n % d) <==> d <= B32
  {
    if d > B32 {
      var n: U64 := B32;
      SmallMod(n, d);
      assert Wrap32(n % d) != n % d;
    } else {
      forall n: U64 ensures Wrap32(n % d) == n % d {
        ModBound(n, d);
      }
    }
  }

  lemma ModBound(n: int, d: int)
    requires d > 0
    ensures 0 <= n % d < d
  {
  }

  lemma SmallMod(n: int, d: int)
    requires 0 <= n < d
    ensures n % d == n && n / d == 0
  {
    DivUnique(n, d, 0);
  }

  function Abs(x: int): nat { if x >= 0 then x else -x }

  /** C's division: the quotient truncated toward zero. */
  function TruncDiv(n: int, d: int): int
    requires d != 0
  {
    if (n < 0) == (d < 0) then Abs(n) / Abs(d) else -(Abs(n) / Abs(d))
  }

  lemma SignedProduct(n: int, d: int, q: int, t: int)
    requires t == if (n < 0) == (d < 0) then q else -q
    ensures d * q == if n < 0 then -(Abs(d) * t) else Abs(d) * t
  {
  }

  lemma QuotientMeaning(a: nat, b: nat, t: int)
    requires b > 0
    ensures t == a / b <==> 0 <= a - b * t < b
  {
    DivProperty(a, b);
    assert (t + 1) * b == b * t + b;
    if 0 <= a - b * t < b { DivUnique(a, b, t); }
  }

  /** TruncDiv is the quotient whose remainder is smaller than the divisor and
      has the sign of the dividend. */
  lemma TruncDivMeaning(n: int, d: int, q: int)
    requires d != 0
    ensures q == TruncDiv(n, d) <==>
              Abs(n - d * q) < Abs(d) && (n - d * q == 0 || (n - d * q < 0 <==> n < 0))
  {
    var t := if (n < 0) == (d < 0) then q else -q;
    SignedProduct(n, d, q, t);
    QuotientMeaning(Abs(n), Abs(d), t);
  }

  lemma AbsQuotientBound(n: I64, d: I64)
    requires d != 0
    ensures 0 <= Abs(n) / Abs(d) <= 0x8000_0000_0000_0000
    ensures Abs(n) / Abs(d) == 0x8000_0000_0000_0000 <==> n == INT64_MIN && (d == 1 || d == -1)
  {
    var a, b := Abs(n), Abs(d);
    DivProperty(a, b);
    DivLe(a, b);
    if b >= 2 { MulLessEq(2, b, a / b); }
  }

  /** -u in uint64_t arithmetic. */
  function Negated(u: U64): U64 {
    var i: int := u;
    Wrap64(-i)
  }

  lemma NegatedIsAbs(n: I64)
    ensures n < 0 ==> Negated(Wrap64(n)) == Abs(n)
  {
  }

  /** Negating after the conversion to int64_t is the conversion of the negation. */
  lemma SignedQuotient(q: U64)
    requires q <= 0x8000_0000_0000_0000
    ensures var i: int, j: int := q, ToI64(q); ToI64(-j) == ToI64(-i)
  {
  }

  /** sdiv64(): the truncated quotient, as far as 64 bits can hold it. */
  method Sdiv64(n: I64, d: I64) returns (r: I64)
    requires d != 0
    ensures r == ToI64(TruncDiv(n, d))
  {
    var nAbs: U64 := if n >= 0 then n else Negated(Wrap64(n));
    var dAbs: U64 := if d >= 0 then d else Negated(Wrap64(d));
    NegatedIsAbs(n);
    NegatedIsAbs(d);
    AbsQuotientBound(n, d);
    var qAbs := Udiv64(nAbs, dAbs);
    SignedQuotient(qAbs);
    var q: int := ToI64(qAbs);
    r := if (n < 0) == (d < 0) then q else ToI64(-q);
  }

  /** The only quotient that does not fit is INT64_MIN / -1. */
  lemma Sdiv64Exact(n: I64, d: I64)
    requires d != 0
    ensures ToI64(TruncDiv(n, d)) == TruncDiv(n, d) <==> !(n == INT64_MIN && d == -1)
  {
    AbsQuotientBound(n, d);
  }

  function TruncMod(n: int, d: int): int
    requires d != 0
  {
    n - d * TruncDiv(n, d)
  }

  lemma TruncModBound(n: int, d: int)
    requires d != 0
    ensures Abs(TruncMod(n, d)) < Abs(d)
  {
    TruncDivMeaning(n, d, TruncDiv(n, d));
  }

  /** smod64() returns an int32_t: the low 32 bits of the remainder, even when the
      quotient did not fit. */
  method Smod64(n: I64, d: I64) returns (r: int)
    requires d != 0
    ensures r == ToI32(TruncMod(n, d))
  {
    var q := Sdiv64(n, d);
    Sdiv64Exact(n, d);
    TruncModBound(n, d);
    if n == INT64_MIN && d == -1 {
      assert TruncDiv(n, d) == 0x8000_0000_0000_0000;
      assert q == INT64_MIN;
    } else {
      SmallI64(n, d);
    }
    r := ToI32(ToI64(n - ToI64(d * q)));
  }

  lemma SmallI64(n: I64, d: I64)
    requires d != 0
    ensures ToI64(d * TruncDiv(n, d)) == d * TruncDiv(n, d)
    ensures ToI64(TruncMod(n, d)) == TruncMod(n, d)
  {
    TruncDivMeaning(n, d, TruncDiv(n, d));
    TruncModBound(n, d);
    ProductBetween(n, d);
    FitsI64(d * TruncDiv(n, d));
    FitsI64(TruncMod(n, d));
  }

  lemma FitsI64(x: int)
    requires -0x8000_0000_0000_0000 <= x < 0x8000_0000_0000_0000
    ensures ToI64(x) == x
  {
  }

  /** d * (n / d) lies between 0 and n. */
  lemma ProductBetween(n: int, d: int)
    requires d != 0
    ensures n >= 0 ==> 0 <= d * TruncDiv(n, d) <= n
    ensures n < 0 ==> n <= d * TruncDiv(n, d) <= 0
  {
    var a: int, b: int := Abs(n), Abs(d);
    DivProperty(a, b);
    DivLe(a, b);
    assert (a / b) * b >= 0 by { MulLessEq(0, a / b, b); }
    assert d * TruncDiv(n, d) == if n < 0 then -((a / b) * b) else (a / b) * b;
  }

  /** Exact for all n if and only if |d| is at most 2^31. */
  lemma Smod64Exact(d: I64)
    requires d != 0
    ensures (forall n: I64 :: ToI32(TruncMod(n, d)) == TruncMod(n, d)) <==> Abs(d) <= 0x8000_0000
  {
    if Abs(d) > 0x8000_0000 {
      var n: I64 := 0x8000_0000;
      SmallMod(n, Abs(d));
      assert TruncMod(n, d) == n;
      assert ToI32(TruncMod(n, d)) != TruncMod(n, d);
    } else {
      forall n: I64 ensures ToI32(TruncMod(n, d)) == TruncMod(n, d) {
        TruncModBound(n, d);
      }
    }
  }
}
