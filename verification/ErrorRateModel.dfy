/** The coded error probability of src/devices/wifi/ovnis-error-rate-model.cc.

Doubles are modelled as reals; the unsigned 32-bit arithmetic of the factorials is modelled with
its wrap-around.  The C library functions erfc, sqrt and log are a parameter, `Library`.
*/
module ErrorRateModel {
  import opened Collections

  // ---------------------------------------------------------------- 32-bit factorials

  const TWO_TO_THE_32 := 0x1_0000_0000

  function Fact(k: nat): (f: nat)
    ensures f >= 1
  {
    if k == 0 then 1 else k * Fact(k - 1)
  }

  /** Unsigned 32-bit wrap-around. */
  function Wrap(n: nat): nat {
    n % TWO_TO_THE_32
  }

  /** The value a 32-bit unsigned factorial holds. */
  function Fact32(k: nat): nat {
    Wrap(Fact(k))
  }

  lemma WrapProduct(a: nat, b: nat)
    ensures Wrap(Wrap(a) * b) == Wrap(a * b)
  {
    var q, r := a / TWO_TO_THE_32, a % TWO_TO_THE_32;
    assert a * b == TWO_TO_THE_32 * (q * b) + r * b by {
      assert a == TWO_TO_THE_32 * q + r;
      assert a * b == (TWO_TO_THE_32 * q + r) * b == TWO_TO_THE_32 * q * b + r * b;
    }
    AddMultiple(q * b, r * b);
  }

  lemma AddMultiple(q: int, r: int)
    ensures (TWO_TO_THE_32 * q + r) % TWO_TO_THE_32 == r % TWO_TO_THE_32
  {
  }

  /** The loop multiplies downwards and wraps at every step; the result is the wrapped factorial. */
  method Factorial(k: nat) returns (fact: nat)
    ensures fact == Fact32(k)
  {
    hide Wrap, Fact;
    fact := 1;
    var n := k;
    assert 1 * Fact(k) == Fact(k);
    while n > 0
      invariant 0 <= n <= k
      invariant Wrap(fact * Fact(n)) == Fact32(k)
      invariant 0 <= fact < TWO_TO_THE_32
    {
      FactorialStep(fact, n);
      fact := Wrap(fact * n);
      n := n - 1;
    }
    FactorialDone(fact);
  }

  lemma {:induction false} FactorialStep(fact: nat, n: nat)
    requires n > 0
    ensures Wrap(Wrap(fact * n) * Fact(n - 1)) == Wrap(fact * Fact(n))
    ensures Wrap(fact * n) < TWO_TO_THE_32
  {
    WrapProduct(fact * n, Fact(n - 1));
    assert fact * n * Fact(n - 1) == fact * (n * Fact(n - 1));
  }

  lemma FactorialDone(fact: nat)
    requires fact < TWO_TO_THE_32
    ensures Wrap(fact * Fact(0)) == fact
  {
    assert Fact(0) == 1;
  }

  lemma {:induction false} FactGrows(j: nat, k: nat)
    requires j <= k
    ensures Fact(j) <= Fact(k)
    decreases k - j
  {
    if j < k {
      FactGrows(j, k - 1);
      assert Fact(k) == k * Fact(k - 1) >= Fact(k - 1);
    }
  }

  /** Thirty-two bits hold the factorial exactly up to 12 and never beyond. */
  lemma {:induction false} FactorialExactIff(k: nat)
    ensures Fact32(k) == Fact(k) <==> k <= 12
  {
    assert Fact(12) == 479001600;
    if k <= 12 {
      FactGrows(k, 12);
    } else {
      FactGrows(13, k);
      assert Fact(13) == 13 * Fact(12);
    }
  }

  // ---------------------------------------------------------------- binomial coefficients

  /** Pascal's triangle. */
  function Choose(n: nat, k: nat): nat {
    if k == 0 then 1
    else if n == 0 then 0
    else Choose(n - 1, k - 1) + Choose(n - 1, k)
  }

  lemma {:induction false} ChooseBeyond(n: nat, k: nat)
    requires k > n
    ensures Choose(n, k) == 0
  {
    if n > 0 {
      ChooseBeyond(n - 1, k - 1);
      ChooseBeyond(n - 1, k);
    }
  }

  lemma {:induction false} ChooseFactorial(n: nat, k: nat)
    requires k <= n
    ensures Choose(n, k) * (Fact(k) * Fact(n - k)) == Fact(n)
  {
    if k == 0 {
      assert Fact(0) == 1;
    } else if k == n {
      ChooseFactorial(n - 1, k - 1);
      ChooseBeyond(n - 1, k);
      assert Choose(n, k) == Choose(n - 1, k - 1) && Fact(n - k) == 1 && Fact(n) == n * Fact(n - 1);
      hide Fact, Choose;
      DiagonalStep(Choose(n - 1, k - 1), n, Fact(n - 1));
    } else {
      ChooseFactorial(n - 1, k - 1);
      ChooseFactorial(n - 1, k);
      assert Choose(n, k) == Choose(n - 1, k - 1) + Choose(n - 1, k);
      assert Fact(k) == k * Fact(k - 1) && Fact(n - k) == (n - k) * Fact(n - k - 1) && Fact(n) == n * Fact(n - 1);
      hide Fact, Choose;
      PascalStep(Choose(n - 1, k - 1), Choose(n - 1, k), n, k, Fact(k - 1), Fact(n - k - 1), Fact(n - 1));
    }
  }

  lemma DiagonalStep(c: nat, n: nat, f: nat)
    requires c * (f * 1) == f
    ensures c * ((n * f) * 1) == n * f
  {
    assert c * (n * f) == n * (c * f);
  }

  lemma PascalStep(a: nat, b: nat, n: nat, k: nat, f: nat, g: nat, h: nat)
    requires 0 < k < n
    requires a * (f * ((n - k) * g)) == h
    requires b * ((k * f) * g) == h
    ensures (a + b) * ((k * f) * ((n - k) * g)) == n * h
  {
    calc {
      (a + b) * ((k * f) * ((n - k) * g));
      a * ((k * f) * ((n - k) * g)) + b * ((k * f) * ((n - k) * g));
      { assert a * ((k * f) * ((n - k) * g)) == k * (a * (f * ((n - k) * g))); }
      k * h + b * ((k * f) * ((n - k) * g));
      { assert b * ((k * f) * ((n - k) * g)) == (n - k) * (b * ((k * f) * g)); }
      k * h + (n - k) * h;
      n * h;
    }
  }

  /** The 32-bit divisor of the source's quotient. */
  function Divisor32(n: nat, k: nat): nat
    requires k <= n
  {
    Wrap(Fact32(k) * Fact32(n - k))
  }

  function Quotient(a: nat, b: nat): nat
    requires b != 0
  {
    a / b
  }

  function Coefficient32(n: nat, k: nat): nat
    requires k <= n && Divisor32(n, k) != 0
  {
    Quotient(Fact32(n), Divisor32(n, k))
  }

  lemma ExactQuotient(a: nat, b: nat, c: nat)
    requires b > 0 && a == c * b
    ensures a / b == c
  {
    var e := a / b - c;
    assert a == a / b * b + a % b;
    assert e * b == a / b * b - c * b;
    SmallMultiple(e, b);
  }

  lemma SmallMultiple(e: int, b: int)
    requires b > 0 && -b < e * b <= 0
    ensures e == 0
  {
    if e <= -1 { MultiplyAtMost(e, -1, b); }
    if e >= 1 { MultiplyAtMost(1, e, b); }
  }

  lemma MultiplyAtMost(x: int, y: int, b: int)
    requires x <= y && b >= 0
    ensures x * b <= y * b
  {
  }

  lemma FactorOfProduct(c: nat, d: nat)
    requires c * d >= 1
    ensures d <= c * d
  {
  }

  /** Up to 12 nothing wraps and the integer division leaves no remainder. */
  lemma {:induction false} CoefficientExact(n: nat, k: nat)
    requires k <= n <= 12
    ensures Divisor32(n, k) != 0
    ensures Coefficient32(n, k) == Choose(n, k)
  {
    FactorialExactIff(n);
    FactorialExactIff(k);
    FactorialExactIff(n - k);
    WrappedBelow(Fact(n));
    hide Fact, Choose, Wrap, Fact32;
    ChooseFactorial(n, k);
    var d := Fact(k) * Fact(n - k);
    PositiveFactors(Fact(k), Fact(n - k));
    FactorOfProduct(Choose(n, k), d);
    SmallUnwrapped(d);
    assert Divisor32(n, k) == d;
    ExactQuotient(Fact(n), d, Choose(n, k));
  }

  lemma WrappedBelow(x: nat)
    ensures Wrap(x) < TWO_TO_THE_32
  {
  }

  lemma SmallUnwrapped(x: nat)
    requires x < TWO_TO_THE_32
    ensures Wrap(x) == x
  {
  }

  lemma PositiveFactors(a: nat, b: nat)
    requires a >= 1 && b >= 1
    ensures a * b >= 1
  {
  }

  lemma {:induction false} ChooseOne(n: nat)
    ensures Choose(n, 1) == n
  {
    if n > 0 { ChooseOne(n - 1); }
  }

  lemma ChooseSymmetric(n: nat, k: nat)
    requires k <= n
    ensures Choose(n, k) == Choose(n, n - k) >= 1
  {
    hide Fact, Choose;
    ChooseFactorial(n, k);
    ChooseFactorial(n, n - k);
    var d := Fact(k) * Fact(n - k);
    FactorOfProduct(Choose(n, k), d);
    ExactQuotient(Fact(n), d, Choose(n, k));
    ExactQuotient(Fact(n), d, Choose(n, n - k));
    if Choose(n, k) == 0 { NothingTimes(d); }
  }

  lemma NothingTimes(d: int)
    ensures 0 * d == 0
  {
  }

  // ---------------------------------------------------------------- beyond twelve

  /** The 32-bit factorials of 12 to 34. */
  const WRAPPED: seq<nat> := [
    479001600, 1932053504, 1278945280, 2004310016, 2004189184, 4006445056, 3396534272, 109641728, 2192834560,
    3099852800, 3772252160, 862453760, 3519021056, 2076180480, 2441084928, 1484783616, 2919235584,
    3053453312, 1409286144, 738197504, 2147483648, 2147483648, 0
  ]

  lemma {:induction false} NextWrapped(n: nat)
    requires n > 0
    ensures Fact32(n) == Wrap(n * Fact32(n - 1))
  {
    WrapProduct(Fact(n - 1), n);
    assert Fact(n - 1) * n == n * Fact(n - 1) && Fact32(n - 1) * n == n * Fact32(n - 1);
  }

  lemma TableStep(i: nat)
    requires 0 < i < |WRAPPED|
    ensures WRAPPED[i] == Wrap((12 + i) * WRAPPED[i - 1])
  {
  }

  lemma {:induction false} Wrapped(n: nat)
    requires 12 <= n <= 34
    ensures Fact32(n) == WRAPPED[n - 12]
  {
    if n == 12 {
      FactorialExactIff(12);
      assert Fact(12) == 479001600;
    } else {
      hide Fact32, Wrap;
      Wrapped(n - 1);
      NextWrapped(n);
      TableStep(n - 12);
    }
  }

  /** From 34 on nothing is left of the factorial. */
  lemma {:induction false} WrappedToNothing(n: nat)
    ensures Fact32(n) == 0 <==> n >= 34
  {
    if n <= 12 {
      FactorialExactIff(n);
    } else if n <= 34 {
      Wrapped(n);
    } else {
      WrappedToNothing(n - 1);
      NextWrapped(n);
    }
  }

  lemma {:induction false} DivisorIsWrapped(n: nat, k: nat)
    requires k <= n
    ensures Divisor32(n, k) == Wrap(Fact(k) * Fact(n - k))
  {
    hide Fact;
    WrapProduct(Fact(k), Fact32(n - k));
    WrapProduct(Fact(n - k), Fact(k));
    assert Fact(k) * Fact32(n - k) == Fact32(n - k) * Fact(k);
    assert Fact(n - k) * Fact(k) == Fact(k) * Fact(n - k);
  }

  /** Up to 33 the source divides, if wrongly; beyond it may divide by zero. */
  lemma DivisorNotZero(n: nat, k: nat)
    requires k <= n <= 33
    ensures Divisor32(n, k) != 0
  {
    hide Fact, Choose;
    WrappedToNothing(n);
    DivisorIsWrapped(n, k);
    ChooseFactorial(n, k);
    var d := Fact(k) * Fact(n - k);
    if Wrap(d) == 0 { MultipleWraps(Choose(n, k), d); }
  }

  lemma MultipleWraps(c: nat, d: nat)
    requires Wrap(d) == 0
    ensures Wrap(c * d) == 0
  {
    WrapProduct(d, c);
    assert c * d == d * c;
    NothingTimes(c);
  }

  /** The coefficients a probability of distance `d` is made of: above the middle but short of the
      end, and the middle itself when there is one. */
  predicate Used(d: nat, k: nat) {
    (d + 1) / 2 <= k < d || (d == 0 && k == 0)
  }

  ghost predicate RightCoefficient(n: nat, k: nat)
    requires k <= n
  {
    Divisor32(n, k) != 0 && Coefficient32(n, k) == Choose(n, k)
  }

  /** The division traps for some coefficient in use exactly beyond 33. */
  lemma {:induction false} DivisorsNotZeroIff(d: nat)
    ensures (forall k :: Used(d, k) ==> Divisor32(d, k) != 0) <==> d <= 33
  {
    if d <= 33 {
      forall k | Used(d, k) ensures Divisor32(d, k) != 0 { DivisorNotZero(d, k); }
    } else {
      var k := TrapAt(d);
      assert Used(d, k);
    }
  }

  lemma {:induction false} TrapAt(d: nat) returns (k: nat)
    requires d > 33
    ensures Used(d, k) && Divisor32(d, k) == 0
  {
    hide Fact;
    if d == 34 {
      k := 32;
      Wrapped(32);
      assert Fact(2) == 2 by { TwoFactorial(); }
    } else {
      k := d - 1;
      WrappedToNothing(d - 1);
      NothingTimes(Fact32(1));
    }
  }

  lemma TwoFactorial()
    ensures Fact(1) == 1 && Fact(2) == 2
  {
    assert Fact(0) == 1;
  }

  lemma {:induction false} NextToTopIsWrong(n: nat)
    requires n >= 1 && 0 < Fact32(n - 1) && n * Fact32(n - 1) >= TWO_TO_THE_32
    ensures !RightCoefficient(n, n - 1)
  {
    hide Fact, Choose;
    TwoFactorial();
    var f := Fact32(n - 1);
    assert Divisor32(n, n - 1) == Wrap(f * 1) == f;
    ChooseSymmetric(n, n - 1);
    ChooseOne(n);
    NextWrapped(n);
    QuotientBelow(Fact32(n), f, n);
  }

  lemma QuotientBelow(a: nat, b: nat, c: nat)
    requires b > 0 && a < c * b
    ensures a / b < c
  {
    assert a == a / b * b + a % b;
    if a / b >= c { MultiplyAtMost(c, a / b, b); }
  }

  /** From 13 on some coefficient in use is wrong, or cannot be computed. */
  lemma {:induction false} WrongTerm(n: nat) returns (k: nat)
    requires n >= 13
    ensures Used(n, k) && !RightCoefficient(n, k)
  {
    hide Fact, Choose;
    if n > 33 {
      k := TrapAt(n);
    } else if n == 20 {
      k := 18;
      Wrapped(18);
      Wrapped(20);
      TwoFactorial();
      ChooseSymmetric(20, 18);
    } else {
      k := n - 1;
      Wrapped(n - 1);
      WrappedProductIsBig(n);
      NextToTopIsWrong(n);
    }
  }

  lemma WrappedProductIsBig(n: nat)
    requires 13 <= n <= 33 && n != 20
    ensures WRAPPED[n - 13] > 0 && n * WRAPPED[n - 13] >= TWO_TO_THE_32
  {
  }

  /** The 32-bit quotients of a row are its binomial coefficients exactly up to row 12. */
  lemma {:induction false} RowIsRightIff(n: nat)
    ensures (forall k :: 0 <= k <= n ==> RightCoefficient(n, k)) <==> n <= 12
  {
    if n <= 12 {
      forall k | 0 <= k <= n ensures RightCoefficient(n, k) { CoefficientExact(n, k); }
    } else {
      var k := WrongTerm(n);
    }
  }

  /** Even the coefficients in use are all right exactly up to 12. */
  lemma {:induction false} UsedAreRightIff(d: nat)
    ensures (forall k :: Used(d, k) ==> RightCoefficient(d, k)) <==> d <= 12
  {
    if d <= 12 {
      forall k | Used(d, k) ensures RightCoefficient(d, k) { CoefficientExact(d, k); }
    } else {
      var k := WrongTerm(d);
    }
  }

  // ---------------------------------------------------------------- powers

  function Pow(x: real, n: nat): real {
    if n == 0 then 1.0 else x * Pow(x, n - 1)
  }

  lemma {:induction false} PowOfSum(x: real, a: nat, b: nat)
    ensures Pow(x, a + b) == Pow(x, a) * Pow(x, b)
  {
    if a > 0 {
      PowOfSum(x, a - 1, b);
      assert x * (Pow(x, a - 1) * Pow(x, b)) == x * Pow(x, a - 1) * Pow(x, b);
    }
  }

  lemma UnitProduct(a: real, b: real)
    requires 0.0 <= a <= 1.0 && 0.0 <= b <= 1.0
    ensures 0.0 <= a * b && a * b <= a && a * b <= b
  {
  }

  lemma {:induction false} PowInUnit(x: real, n: nat)
    requires 0.0 <= x <= 1.0
    ensures 0.0 <= Pow(x, n) <= 1.0
  {
    if n > 0 {
      PowInUnit(x, n - 1);
      UnitProduct(x, Pow(x, n - 1));
    }
  }

  lemma {:induction false} PowMonotone(x: real, y: real, n: nat)
    requires 0.0 <= x <= y
    ensures 0.0 <= Pow(x, n) <= Pow(y, n)
  {
    if n > 0 {
      PowMonotone(x, y, n - 1);
      assert x * Pow(x, n - 1) <= y * Pow(x, n - 1) <= y * Pow(y, n - 1);
    }
  }

  // ---------------------------------------------------------------- binomial terms and tails

  /** The probability of exactly `k` errors among `n`. */
  function Term(n: nat, k: nat, p: real): real
    requires k <= n
  {
    Weigh(Choose(n, k) as real, Pow(p, k), Pow(1.0 - p, n - k))
  }

  function Weigh(c: real, x: real, y: real): real {
    c * x * y
  }

  /** The source's `Binomial`, with its 32-bit coefficient; nothing when the division traps. */
  function Binomial(k: nat, p: real, n: nat): Option<real>
    requires k <= n
  {
    if Divisor32(n, k) == 0 then None
    else Some(Weigh(Coefficient32(n, k) as real, Pow(p, k), Pow(1.0 - p, n - k)))
  }

  function BinomialOrZero(k: nat, p: real, n: nat): real
    requires k <= n
  {
    match Binomial(k, p, n)
    case Some(b) => b
    case None => 0.0
  }

  lemma BinomialIsTerm(k: nat, p: real, n: nat)
    requires k <= n <= 12
    ensures BinomialOrZero(k, p, n) == Term(n, k, p)
  {
    hide Fact, Choose, Pow, Fact32, Divisor32, Coefficient32;
    CoefficientExact(n, k);
  }

  /** Terms `from` up to but not including `end`. */
  function TermSum(n: nat, p: real, from: nat, end: nat): real
    requires end <= n + 1
    decreases end
  {
    if end <= from then 0.0 else TermSum(n, p, from, end - 1) + Term(n, end - 1, p)
  }

  lemma {:induction false} TermSumSplit(n: nat, p: real, a: nat, b: nat, c: nat)
    requires a <= b <= c <= n + 1
    ensures TermSum(n, p, a, c) == TermSum(n, p, a, b) + TermSum(n, p, b, c)
    decreases c
  {
    if b < c { TermSumSplit(n, p, a, b, c - 1); }
  }

  lemma TermNonNegative(n: nat, k: nat, p: real)
    requires k <= n && 0.0 <= p <= 1.0
    ensures Term(n, k, p) >= 0.0
  {
    PowInUnit(p, k);
    PowInUnit(1.0 - p, n - k);
    NonNegativeProduct(Choose(n, k) as real, Pow(p, k));
    NonNegativeProduct(Choose(n, k) as real * Pow(p, k), Pow(1.0 - p, n - k));
  }

  lemma NonNegativeProduct(a: real, b: real)
    requires a >= 0.0 && b >= 0.0
    ensures a * b >= 0.0
  {
  }

  lemma {:induction false} TermSumNonNegative(n: nat, p: real, from: nat, end: nat)
    requires end <= n + 1 && 0.0 <= p <= 1.0
    ensures TermSum(n, p, from, end) >= 0.0
    decreases end
  {
    if from < end {
      TermSumNonNegative(n, p, from, end - 1);
      TermNonNegative(n, end - 1, p);
    }
  }

  /** Pascal's rule for the terms. */
  lemma TermStep(n: nat, k: nat, p: real)
    requires 1 <= k <= n
    ensures Term(n + 1, k, p) == p * Term(n, k - 1, p) + (1.0 - p) * Term(n, k, p)
  {
    hide Weigh;
    var q := 1.0 - p;
    var x, y := Pow(p, k - 1), Pow(q, n - k);
    var c, d := Choose(n, k - 1) as real, Choose(n, k) as real;
    assert Choose(n + 1, k) as real == c + d;
    WeighPascal(c, d, p, q, x, y, Pow(p, k), Pow(q, n - k + 1));
  }

  lemma WeighPascal(c: real, d: real, p: real, q: real, x: real, y: real, px: real, qy: real)
    requires px == p * x && qy == q * y
    ensures Weigh(c + d, px, qy) == p * Weigh(c, x, qy) + q * Weigh(d, px, y)
  {
    assert c * px * qy == p * (c * x * qy);
    assert d * px * qy == q * (d * px * y);
    assert (c + d) * px * qy == c * px * qy + d * px * qy;
  }

  lemma TermEnds(n: nat, p: real)
    ensures Term(n + 1, 0, p) == (1.0 - p) * Term(n, 0, p)
    ensures Term(n + 1, n + 1, p) == p * Term(n, n, p)
  {
    ChooseBeyond(n, n + 1);
    assert Choose(n + 1, n + 1) == Choose(n, n);
    assert Pow(1.0 - p, 0) == 1.0 && Pow(p, 0) == 1.0;
    var c, x := Choose(n, n) as real, Pow(p, n);
    assert c * (p * x) * 1.0 == p * (c * x * 1.0);
  }

  lemma {:induction false} SumStep(n: nat, p: real, m: nat)
    requires m <= n
    ensures TermSum(n + 1, p, 0, m + 1) == p * TermSum(n, p, 0, m) + (1.0 - p) * TermSum(n, p, 0, m + 1)
  {
    hide Term, Choose, Pow;
    if m == 0 {
      TermEnds(n, p);
      assert TermSum(n + 1, p, 0, 1) == TermSum(n + 1, p, 0, 0) + Term(n + 1, 0, p);
      assert TermSum(n, p, 0, 1) == TermSum(n, p, 0, 0) + Term(n, 0, p);
    } else {
      SumStep(n, p, m - 1);
      TermStep(n, m, p);
      var a, b := TermSum(n, p, 0, m - 1), TermSum(n, p, 0, m);
      var s, t := Term(n, m - 1, p), Term(n, m, p);
      assert b == a + s;
      assert TermSum(n, p, 0, m + 1) == b + t;
      assert p * a + p * s == p * b;
      assert (1.0 - p) * b + (1.0 - p) * t == (1.0 - p) * (b + t);
    }
  }

  /** The binomial theorem: all terms together make one. */
  lemma {:induction false} TermsSumToOne(n: nat, p: real)
    ensures TermSum(n, p, 0, n + 1) == 1.0
  {
    if n == 0 {
      assert TermSum(0, p, 0, 1) == TermSum(0, p, 0, 0) + Term(0, 0, p);
      assert Pow(p, 0) == 1.0 && Pow(1.0 - p, 0) == 1.0;
    } else {
      TermsSumToOne(n - 1, p);
      NextRow(n - 1, p);
    }
  }

  lemma NextRow(n: nat, p: real)
    requires TermSum(n, p, 0, n + 1) == 1.0
    ensures TermSum(n + 1, p, 0, n + 2) == 1.0
  {
    hide Term, Choose, Pow;
    SumStep(n, p, n);
    TermEnds(n, p);
    var a, s := TermSum(n, p, 0, n), Term(n, n, p);
    OddsAddUp(p, a, s);
  }

  lemma OddsAddUp(p: real, a: real, s: real)
    requires a + s == 1.0
    ensures p * a + (1.0 - p) * (a + s) + p * s == 1.0
  {
    assert p * a + p * s == p * (a + s);
  }

  /** With at most even odds, more errors than half are no likelier than their mirror image. */
  lemma TermMirror(n: nat, k: nat, p: real)
    requires n <= 2 * k && k <= n && 0.0 <= p <= 0.5
    ensures Term(n, k, p) <= Term(n, n - k, p)
  {
    hide Choose, Weigh, Pow;
    ChooseSymmetric(n, k);
    var q := 1.0 - p;
    var j, e := n - k, k - (n - k);
    assert j + e == k && n - j == k;
    PowOfSum(p, j, e);
    PowOfSum(q, j, e);
    PowMonotone(p, q, e);
    PowInUnit(p, j);
    PowInUnit(q, j);
    MirrorOrder(Choose(n, k) as real, Pow(p, j), Pow(q, j), Pow(p, e), Pow(q, e), Pow(p, k), Pow(q, k));
    assert Term(n, k, p) == Weigh(Choose(n, k) as real, Pow(p, k), Pow(q, j));
    assert Term(n, j, p) == Weigh(Choose(n, k) as real, Pow(p, j), Pow(q, k));
  }

  lemma MirrorOrder(c: real, pj: real, qj: real, pe: real, qe: real, pk: real, qk: real)
    requires c >= 0.0 && pj >= 0.0 && qj >= 0.0 && pe <= qe
    requires pk == pj * pe && qk == qj * qe
    ensures Weigh(c, pk, qj) <= Weigh(c, pj, qk)
  {
    NonNegativeProduct(c, pj);
    NonNegativeProduct(c * pj, qj);
    var common := c * pj * qj;
    assert Weigh(c, pk, qj) == common * pe by { assert c * pk == c * pj * pe; }
    assert Weigh(c, pj, qk) == common * qe;
    assert common * pe <= common * qe;
  }

  /** Terms from `m` up weigh at most as much as their mirror images below the middle. */
  lemma {:induction false} TailMirror(n: nat, p: real, m: nat, end: nat)
    requires n <= 2 * m && m <= end <= n + 1 && 0.0 <= p <= 0.5
    ensures TermSum(n, p, m, end) <= TermSum(n, p, n + 1 - end, n + 1 - m)
    decreases end
  {
    if m < end {
      TailMirror(n, p, m, end - 1);
      TermMirror(n, end - 1, p);
      TermSumSplit(n, p, n + 1 - end, n + 2 - end, n + 1 - m);
      assert TermSum(n, p, n + 1 - end, n + 2 - end) ==
             TermSum(n, p, n + 1 - end, n + 1 - end) + Term(n, n + 1 - end, p);
    }
  }

  // ---------------------------------------------------------------- CalculatePd

  /** More than half of `d` bits wrong, short of all of them; a tie counts half. */
  function Pd(p: real, d: nat): real {
    if d % 2 == 0 then TermSum(d, p, d / 2 + 1, d) + 0.5 * Term(d, d / 2, p)
    else TermSum(d, p, (d + 1) / 2, d)
  }

  function BinomialSum(d: nat, p: real, from: nat, end: nat): real
    requires end <= d + 1
    decreases end
  {
    if end <= from then 0.0 else BinomialSum(d, p, from, end - 1) + BinomialOrZero(end - 1, p, d)
  }

  /** What the source adds up, right or wrong. */
  function Computed(p: real, d: nat): real {
    if d % 2 == 0 then BinomialSum(d, p, d / 2 + 1, d) + 0.5 * BinomialOrZero(d / 2, p, d)
    else BinomialSum(d, p, (d + 1) / 2, d)
  }

  lemma {:induction false} SumIsTermSum(d: nat, p: real, from: nat, end: nat)
    requires d <= 12 && end <= d + 1
    ensures BinomialSum(d, p, from, end) == TermSum(d, p, from, end)
    decreases end
  {
    hide Term, BinomialOrZero;
    if from < end {
      SumIsTermSum(d, p, from, end - 1);
      BinomialIsTerm(end - 1, p, d);
    }
  }

  lemma ComputedIsPd(p: real, d: nat)
    requires d <= 12
    ensures Computed(p, d) == Pd(p, d)
  {
    hide Term, BinomialOrZero;
    if d % 2 == 0 {
      SumIsTermSum(d, p, d / 2 + 1, d);
      BinomialIsTerm(d / 2, p, d);
    } else {
      SumIsTermSum(d, p, (d + 1) / 2, d);
    }
  }

  method CalculatePdOdd(ber: real, d: nat) returns (pd: Option<real>)
    requires d % 2 == 1
    ensures pd.Some? <==> d <= 33
    ensures pd.Some? ==> pd.value == Computed(ber, d)
  {
    hide Divisor32, Coefficient32, Weigh;
    DivisorsNotZeroIff(d);
    var dstart, dend := (d + 1) / 2, d;
    var sum := 0.0;
    for i := dstart to dend
      invariant sum == BinomialSum(d, ber, dstart, i)
      invariant forall k :: dstart <= k < i ==> Divisor32(d, k) != 0
    {
      var term := Binomial(i, ber, d);
      if term.None? {
        assert Used(d, i);
        return None;
      }
      sum := sum + term.value;
    }
    return Some(sum);
  }

  method CalculatePdEven(ber: real, d: nat) returns (pd: Option<real>)
    requires d % 2 == 0
    ensures pd.Some? <==> d <= 33
    ensures pd.Some? ==> pd.value == Computed(ber, d)
  {
    hide Divisor32, Coefficient32, Weigh;
    DivisorsNotZeroIff(d);
    var dstart, dend := d / 2 + 1, d;
    var sum := 0.0;
    var i := dstart;
    while i < dend
      invariant dstart <= i && (i <= dend || i == dstart)
      invariant sum == BinomialSum(d, ber, dstart, if i <= dend then i else dend)
      invariant forall k :: dstart <= k < i ==> Divisor32(d, k) != 0
    {
      var term := Binomial(i, ber, d);
      if term.None? {
        assert Used(d, i);
        return None;
      }
      sum := sum + term.value;
      i := i + 1;
    }
    var tie := Binomial(d / 2, ber, d);
    if tie.None? {
      assert Used(d, d / 2);
      return None;
    }
    return Some(sum + 0.5 * tie.value);
  }

  /** Beyond 33 the source divides by zero; up to 12 the result is right. */
  method CalculatePd(ber: real, d: nat) returns (pd: Option<real>)
    ensures pd == if d <= 33 then Some(Computed(ber, d)) else None
    ensures d <= 12 ==> pd == Some(Pd(ber, d))
    ensures d <= 12 && 0.0 <= ber <= 0.5 ==> 0.0 <= pd.value <= 0.5
  {
    hide Computed, Pd;
    if d % 2 == 0 {
      pd := CalculatePdEven(ber, d);
    } else {
      pd := CalculatePdOdd(ber, d);
    }
    if d <= 12 {
      ComputedIsPd(ber, d);
      if 0.0 <= ber <= 0.5 { PdAtMostHalf(ber, d); }
    }
  }

  lemma {:induction false} OneTerm(n: nat, p: real, k: nat)
    requires k <= n
    ensures TermSum(n, p, k, k + 1) == Term(n, k, p)
  {
    assert TermSum(n, p, k, k) == 0.0;
  }

  /** For a bit error rate of at most one half the error event has probability at most one half. */
  lemma PdAtMostHalf(p: real, d: nat)
    requires 0.0 <= p <= 0.5
    ensures 0.0 <= Pd(p, d) <= 0.5
  {
    hide Term, Choose, Pow;
    TermsSumToOne(d, p);
    if d == 0 {
      OneTerm(0, p, 0);
    } else {
      var m := if d % 2 == 0 then d / 2 + 1 else (d + 1) / 2;
      TailMirror(d, p, m, d);
      TermSumNonNegative(d, p, m, d);
      TermSumSplit(d, p, 0, 1, d + 1);
      TermSumSplit(d, p, 1, d + 1 - m, d + 1);
      TermSumSplit(d, p, d + 1 - m, m, d + 1);
      TermSumSplit(d, p, m, d, d + 1);
      TermSumNonNegative(d, p, 0, 1);
      TermSumNonNegative(d, p, d, d + 1);
      if d % 2 == 0 {
        OneTerm(d, p, d / 2);
        TermNonNegative(d, d / 2, p);
      }
    }
  }

  // ---------------------------------------------------------------- bit error rates

  /** The C library functions the model calls, and the DSSS success rates, whose code is not part
      of this model. */
  datatype Library = Library(
    erfc: real -> real,
    sqrt: real -> real,
    log: real -> real,
    dsss: (nat, real, nat) -> real)

  ghost predicate Sound(lib: Library) {
    && (forall z :: z >= 0.0 ==> 0.0 <= lib.erfc(z) <= 1.0)
    && (forall x :: x >= 0.0 ==> lib.sqrt(x) >= 0.0 && lib.sqrt(x) * lib.sqrt(x) == x)
    && lib.log(2.0) > 0.0
    && (forall a, b :: a > 0.0 && b > 0.0 ==> lib.log(Times(a, b)) == lib.log(a) + lib.log(b))
  }

  function Times(a: real, b: real): real { a * b }

  function Log2(lib: Library, val: real): real
    requires Sound(lib)
  {
    lib.log(val) / lib.log(2.0)
  }

  /** The ratio of energy per bit to noise. */
  function EbNo(snr: real, signalSpread: nat, phyRate: nat): real
    requires phyRate > 0
  {
    snr * signalSpread as real / phyRate as real
  }

  lemma EbNoNotNegative(snr: real, signalSpread: nat, phyRate: nat)
    requires snr >= 0.0 && phyRate > 0
    ensures EbNo(snr, signalSpread, phyRate) >= 0.0
  {
    NonNegativeProduct(snr, signalSpread as real);
    NonNegativeQuotient(snr * signalSpread as real, phyRate as real);
  }

  function GetBpskBer(lib: Library, snr: real, signalSpread: nat, phyRate: nat): real
    requires phyRate > 0
  {
    var z := lib.sqrt(EbNo(snr, signalSpread, phyRate));
    0.5 * lib.erfc(z)
  }

  function GetQamBer(lib: Library, snr: real, m: nat, signalSpread: nat, phyRate: nat): real
    requires Sound(lib) && phyRate > 0 && m in {4, 16, 64}
  {
    Constellations(lib);
    var z := lib.sqrt((1.5 * Log2(lib, m as real) * EbNo(snr, signalSpread, phyRate)) / (m as real - 1.0));
    var z1 := (1.0 - 1.0 / lib.sqrt(m as real)) * lib.erfc(z);
    var z2 := 1.0 - Pow(1.0 - z1, 2);
    z2 / Log2(lib, m as real)
  }

  lemma Logarithms(lib: Library)
    requires Sound(lib)
    ensures Log2(lib, 4.0) == 2.0 && Log2(lib, 16.0) == 4.0 && Log2(lib, 64.0) == 6.0
  {
    var l := lib.log(2.0);
    assert lib.log(Times(2.0, 2.0)) == l + l;
    assert lib.log(Times(4.0, 4.0)) == lib.log(4.0) + lib.log(4.0);
    assert lib.log(Times(16.0, 4.0)) == lib.log(16.0) + lib.log(4.0);
    assert Times(2.0, 2.0) == 4.0 && Times(4.0, 4.0) == 16.0 && Times(16.0, 4.0) == 64.0;
    hide Sound;
    MultipleQuotient(lib.log(4.0), 2.0, l);
    MultipleQuotient(lib.log(16.0), 4.0, l);
    MultipleQuotient(lib.log(64.0), 6.0, l);
  }

  lemma MultipleQuotient(a: real, k: real, b: real)
    requires b > 0.0 && a == k * b
    ensures a / b == k
  {
  }

  lemma RootUnique(x: real, y: real)
    requires x >= 0.0 && y > 0.0 && x * x == y * y
    ensures x == y
  {
    assert (x - y) * (x + y) == 0.0;
    if x > y { PositiveProduct(x - y, x + y); }
    if x < y { PositiveProduct(y - x, x + y); }
  }

  lemma PositiveProduct(a: real, b: real)
    requires a > 0.0 && b > 0.0
    ensures a * b > 0.0
  {
  }

  lemma Constellations(lib: Library)
    requires Sound(lib)
    ensures lib.sqrt(4.0) == 2.0 && lib.sqrt(16.0) == 4.0 && lib.sqrt(64.0) == 8.0
    ensures Log2(lib, 4.0) == 2.0 && Log2(lib, 16.0) == 4.0 && Log2(lib, 64.0) == 6.0
  {
    Logarithms(lib);
    RootUnique(lib.sqrt(4.0), 2.0);
    RootUnique(lib.sqrt(16.0), 4.0);
    RootUnique(lib.sqrt(64.0), 8.0);
  }

  lemma BpskBerAtMostHalf(lib: Library, snr: real, signalSpread: nat, phyRate: nat)
    requires Sound(lib) && snr >= 0.0 && phyRate > 0
    ensures 0.0 <= GetBpskBer(lib, snr, signalSpread, phyRate) <= 0.5
  {
    EbNoNotNegative(snr, signalSpread, phyRate);
  }

  /** What is left of the signal error after the constellation's share. */
  lemma QamErrorInUnit(share: real, e: real)
    requires 0.0 <= share <= 1.0 && 0.0 <= e <= 1.0
    ensures 0.0 <= 1.0 - Pow(1.0 - share * e, 2) <= 1.0
  {
    UnitProduct(share, e);
    var kept := 1.0 - share * e;
    assert Pow(kept, 2) == kept * kept by {
      assert Pow(kept, 0) == 1.0;
      assert Pow(kept, 1) == kept * Pow(kept, 0);
    }
    UnitProduct(kept, kept);
  }

  lemma NonNegativeQuotient(a: real, b: real)
    requires a >= 0.0 && b > 0.0
    ensures a / b >= 0.0
  {
  }

  lemma QamBerAtMostHalf(lib: Library, snr: real, m: nat, signalSpread: nat, phyRate: nat)
    requires Sound(lib) && snr >= 0.0 && phyRate > 0 && m in {4, 16, 64}
    ensures 0.0 <= GetQamBer(lib, snr, m, signalSpread, phyRate) <= 0.5
  {
    hide Log2, Pow, Sound, EbNo;
    Constellations(lib);
    var bits, ebNo := Log2(lib, m as real), EbNo(snr, signalSpread, phyRate);
    EbNoNotNegative(snr, signalSpread, phyRate);
    NonNegativeProduct(1.5 * bits, ebNo);
    NonNegativeQuotient(1.5 * bits * ebNo, m as real - 1.0);
    var z := lib.sqrt((1.5 * bits * ebNo) / (m as real - 1.0));
    ErfcOfRoot(lib, (1.5 * bits * ebNo) / (m as real - 1.0));
    var share := 1.0 - 1.0 / lib.sqrt(m as real);
    assert bits >= 2.0 && 0.0 <= share <= 1.0;
    QamErrorInUnit(share, lib.erfc(z));
    assert GetQamBer(lib, snr, m, signalSpread, phyRate) == (1.0 - Pow(1.0 - share * lib.erfc(z), 2)) / bits;
    HalfAtMost(1.0 - Pow(1.0 - share * lib.erfc(z), 2), bits);
  }

  lemma ErfcOfRoot(lib: Library, x: real)
    requires Sound(lib) && x >= 0.0
    ensures 0.0 <= lib.erfc(lib.sqrt(x)) <= 1.0
  {
  }

  lemma HalfAtMost(x: real, bits: real)
    requires 0.0 <= x <= 1.0 && bits >= 2.0
    ensures 0.0 <= x / bits <= 0.5
  {
  }

  // ---------------------------------------------------------------- chunk success rates

  function Least(a: real, b: real): real { if b < a then b else a }

  function Weighted(count: nat, pd: real): (w: real)
    ensures pd >= 0.0 ==> w >= 0.0
  {
    count as real * pd
  }

  /** The distances in use are at most 11, where `CalculatePd` gives `Pd`. */
  function GetFecBpskBer(lib: Library, snr: real, nbits: nat, signalSpread: nat, phyRate: nat,
                         dFree: nat, adFree: nat): real
    requires phyRate > 0
  {
    var ber := GetBpskBer(lib, snr, signalSpread, phyRate);
    if ber == 0.0 then 1.0
    else
      var pmu := Least(Weighted(adFree, Pd(ber, dFree)), 1.0);
      Pow(1.0 - pmu, nbits)
  }

  function GetFecQamBer(lib: Library, snr: real, nbits: nat, signalSpread: nat, phyRate: nat,
                        m: nat, dFree: nat, adFree: nat, adFreePlusOne: nat): real
    requires Sound(lib) && phyRate > 0 && m in {4, 16, 64}
  {
    var ber := GetQamBer(lib, snr, m, signalSpread, phyRate);
    if ber == 0.0 then 1.0
    else
      var pmu := Weighted(adFree, Pd(ber, dFree)) + Weighted(adFreePlusOne, Pd(ber, dFree + 1));
      Pow(1.0 - Least(pmu, 1.0), nbits)
  }

  datatype ModulationClass = ErpOfdm | Ofdm | Dsss | OtherClass

  datatype CodeRate = Rate12 | Rate23 | Rate34 | OtherRate

  datatype WifiMode = WifiMode(
    modulationClass: ModulationClass,
    constellationSize: nat,
    codeRate: CodeRate,
    bandwidth: nat,
    phyRate: nat,
    dataRate: nat)

  function GetChunkSuccessRate(lib: Library, mode: WifiMode, snr: real, nbits: nat): real
    requires Sound(lib) && mode.phyRate > 0
  {
    var spread, rate := mode.bandwidth, mode.phyRate;
    if mode.modulationClass == ErpOfdm || mode.modulationClass == Ofdm then
      if mode.constellationSize == 2 then
        if mode.codeRate == Rate12 then GetFecBpskBer(lib, snr, nbits, spread, rate, 10, 11)
        else GetFecBpskBer(lib, snr, nbits, spread, rate, 5, 8)
      else if mode.constellationSize == 4 then
        if mode.codeRate == Rate12 then GetFecQamBer(lib, snr, nbits, spread, rate, 4, 10, 11, 0)
        else GetFecQamBer(lib, snr, nbits, spread, rate, 4, 5, 8, 31)
      else if mode.constellationSize == 16 then
        if mode.codeRate == Rate12 then GetFecQamBer(lib, snr, nbits, spread, rate, 16, 10, 11, 0)
        else GetFecQamBer(lib, snr, nbits, spread, rate, 16, 5, 8, 31)
      else if mode.constellationSize == 64 then
        if mode.codeRate == Rate23 then GetFecQamBer(lib, snr, nbits, spread, rate, 64, 6, 1, 16)
        else GetFecQamBer(lib, snr, nbits, spread, rate, 64, 5, 8, 31)
      else 0.0
    else if mode.modulationClass == Dsss && mode.dataRate in {1000000, 2000000, 5500000, 11000000} then
      lib.dsss(mode.dataRate, snr, nbits)
    else 0.0
  }

  /** A success rate for one chunk of `a` bits, one of `b` bits, and both together. */
  ghost predicate SplitsCleanly(whole: real, first: real, second: real) {
    && 0.0 <= first <= 1.0 && 0.0 <= second <= 1.0
    && whole == first * second
    && whole <= first && whole <= second
  }

  lemma ProductSplits(w: real, u: real, v: real)
    requires 0.0 <= u <= 1.0 && 0.0 <= v <= 1.0 && w == u * v
    ensures SplitsCleanly(w, u, v)
  {
    assert u - w == u * (1.0 - v);
    assert v - w == v * (1.0 - u);
    UnitProduct(u, 1.0 - v);
    UnitProduct(v, 1.0 - u);
  }

  lemma PowSplits(x: real, a: nat, b: nat)
    requires 0.0 <= x <= 1.0
    ensures SplitsCleanly(Pow(x, a + b), Pow(x, a), Pow(x, b))
  {
    hide Pow, SplitsCleanly;
    PowOfSum(x, a, b);
    PowInUnit(x, a);
    PowInUnit(x, b);
    ProductSplits(Pow(x, a + b), Pow(x, a), Pow(x, b));
  }

  lemma FecBpskSplits(lib: Library, snr: real, a: nat, b: nat, spread: nat, rate: nat, dFree: nat, adFree: nat)
    requires Sound(lib) && snr >= 0.0 && rate > 0
    ensures SplitsCleanly(GetFecBpskBer(lib, snr, a + b, spread, rate, dFree, adFree),
                          GetFecBpskBer(lib, snr, a, spread, rate, dFree, adFree),
                          GetFecBpskBer(lib, snr, b, spread, rate, dFree, adFree))
  {
    hide Pd, Pow, Weighted;
    var ber := GetBpskBer(lib, snr, spread, rate);
    BpskBerAtMostHalf(lib, snr, spread, rate);
    PdAtMostHalf(ber, dFree);
    PowSplits(1.0 - Least(Weighted(adFree, Pd(ber, dFree)), 1.0), a, b);
    assert SplitsCleanly(1.0, 1.0, 1.0);
  }

  lemma FecQamSplits(lib: Library, snr: real, a: nat, b: nat, spread: nat, rate: nat,
                     m: nat, dFree: nat, adFree: nat, adFreePlusOne: nat)
    requires Sound(lib) && snr >= 0.0 && rate > 0 && m in {4, 16, 64}
    ensures SplitsCleanly(GetFecQamBer(lib, snr, a + b, spread, rate, m, dFree, adFree, adFreePlusOne),
                          GetFecQamBer(lib, snr, a, spread, rate, m, dFree, adFree, adFreePlusOne),
                          GetFecQamBer(lib, snr, b, spread, rate, m, dFree, adFree, adFreePlusOne))
  {
    hide Pd, Pow, GetQamBer, Weighted;
    var ber := GetQamBer(lib, snr, m, spread, rate);
    QamBerAtMostHalf(lib, snr, m, spread, rate);
    PdAtMostHalf(ber, dFree);
    PdAtMostHalf(ber, dFree + 1);
    PowSplits(1.0 - Least(Weighted(adFree, Pd(ber, dFree)) + Weighted(adFreePlusOne, Pd(ber, dFree + 1)), 1.0), a, b);
    assert SplitsCleanly(1.0, 1.0, 1.0);
  }

  /** For every mode but DSSS: the success rate is a probability, splitting a chunk in two changes
      nothing, and more bits never raise it. */
  lemma ChunkSplits(lib: Library, mode: WifiMode, snr: real, a: nat, b: nat)
    requires Sound(lib) && mode.phyRate > 0 && snr >= 0.0 && mode.modulationClass != Dsss
    ensures SplitsCleanly(GetChunkSuccessRate(lib, mode, snr, a + b),
                          GetChunkSuccessRate(lib, mode, snr, a),
                          GetChunkSuccessRate(lib, mode, snr, b))
  {
    hide GetFecBpskBer, GetFecQamBer, Sound;
    var spread, rate := mode.bandwidth, mode.phyRate;
    FecBpskSplits(lib, snr, a, b, spread, rate, 10, 11);
    FecBpskSplits(lib, snr, a, b, spread, rate, 5, 8);
    FecQamSplits(lib, snr, a, b, spread, rate, 4, 10, 11, 0);
    FecQamSplits(lib, snr, a, b, spread, rate, 4, 5, 8, 31);
    FecQamSplits(lib, snr, a, b, spread, rate, 16, 10, 11, 0);
    FecQamSplits(lib, snr, a, b, spread, rate, 16, 5, 8, 31);
    FecQamSplits(lib, snr, a, b, spread, rate, 64, 6, 1, 16);
    FecQamSplits(lib, snr, a, b, spread, rate, 64, 5, 8, 31);
  }
}
