/** What the constants of `GetChunkSuccessRate` in src/devices/wifi/ovnis-error-rate-model.cc mean.

The probability that one bit of a chunk fails is, in every OFDM mode, a polynomial in the bit error
rate, stated here without the functions it is computed with.  From these polynomials it follows that
a stronger code is never worse, and exactly when it is better.
*/
module CodeRates {
  import opened Collections
  import opened ErrorRateModel

  // ---------------------------------------------------------------- majorities

  /** The probability that at least `k` of `n` bits are wrong, one bit at a time. */
  function AtLeast(n: nat, k: int, p: real): real {
    if k <= 0 then 1.0
    else if n == 0 then 0.0
    else Mixed(p, AtLeast(n - 1, k - 1, p), AtLeast(n - 1, k, p))
  }

  function Mixed(p: real, wrong: real, right: real): real {
    p * wrong + (1.0 - p) * right
  }

  lemma {:induction false} TailIsAtLeast(n: nat, k: nat, p: real)
    requires k <= n + 1
    ensures TermSum(n, p, k, n + 1) == AtLeast(n, k, p)
  {
    hide Term, Choose, Pow, Mixed;
    if k == 0 {
      TermsSumToOne(n, p);
    } else if n == 0 {
      assert TermSum(0, p, 1, 1) == 0.0;
    } else if k <= n {
      TailIsAtLeast(n - 1, k - 1, p);
      TailIsAtLeast(n - 1, k, p);
      TailStep(n - 1, k, p);
    } else {
      NeverMoreThanAll(n, p);
    }
  }

  /** One bit more. */
  lemma TailStep(n: nat, k: nat, p: real)
    requires 1 <= k <= n + 1
    ensures TermSum(n + 1, p, k, n + 2) == Mixed(p, TermSum(n, p, k - 1, n + 1), TermSum(n, p, k, n + 1))
  {
    hide Term, TermSum;
    TermsSumToOne(n, p);
    TermsSumToOne(n + 1, p);
    TermSumSplit(n, p, 0, k - 1, n + 1);
    TermSumSplit(n, p, 0, k, n + 1);
    TermSumSplit(n + 1, p, 0, k, n + 2);
    SumStep(n, p, k - 1);
    var a, b := TermSum(n, p, 0, k - 1), TermSum(n, p, 0, k);
    assert TermSum(n + 1, p, 0, k) == Mixed(p, a, b);
    hide Mixed;
    Complements(p, a, b, TermSum(n, p, k - 1, n + 1), TermSum(n, p, k, n + 1));
  }

  lemma Complements(p: real, a: real, b: real, c: real, d: real)
    requires a + c == 1.0 && b + d == 1.0
    ensures Mixed(p, a, b) + Mixed(p, c, d) == 1.0
  {
    assert p * a + p * c == p * (a + c);
    assert (1.0 - p) * b + (1.0 - p) * d == (1.0 - p) * (b + d);
  }

  lemma {:induction false} NeverMoreThanAll(n: nat, p: real)
    ensures AtLeast(n, n + 1, p) == 0.0
    ensures forall k :: k > n ==> AtLeast(n, k, p) == 0.0
  {
    if n > 0 {
      NeverMoreThanAll(n - 1, p);
    }
  }

  /** A tail short of its last term. */
  lemma TailLacksAllWrong(d: nat, m: nat, p: real)
    requires m <= d
    ensures TermSum(d, p, m, d) + Pow(p, d) == AtLeast(d, m, p)
  {
    hide Term, Pow, AtLeast;
    TermSumSplit(d, p, m, d, d + 1);
    OneTerm(d, p, d);
    AllWrong(d, p);
    TailIsAtLeast(d, m, p);
  }

  /** The error event: more than half of the bits wrong, and half of a tie.  What the source computes
      falls short of it by the case in which all bits are wrong. */
  lemma PdLacksAllWrong(p: real, d: nat)
    requires d > 0
    ensures Pd(p, d) + Pow(p, d) ==
              if d % 2 == 1 then AtLeast(d, (d + 1) / 2, p)
              else 0.5 * AtLeast(d, d / 2, p) + 0.5 * AtLeast(d, d / 2 + 1, p)
  {
    hide Term, TermSum, Pow, AtLeast;
    if d % 2 == 1 {
      TailLacksAllWrong(d, (d + 1) / 2, p);
    } else {
      var h := d / 2;
      TermSumSplit(d, p, h, h + 1, d + 1);
      OneTerm(d, p, h);
      TailIsAtLeast(d, h, p);
      TailIsAtLeast(d, h + 1, p);
      if h + 1 <= d { TailLacksAllWrong(d, h + 1, p); }
    }
  }

  lemma {:induction false} AllWrong(d: nat, p: real)
    ensures Term(d, d, p) == Pow(p, d)
  {
    ChooseSymmetric(d, d);
    assert Choose(d, 0) == 1 && Pow(1.0 - p, 0) == 1.0;
  }

  // ---------------------------------------------------------------- the four events in use

  /** Three or four of five bits wrong. */
  function Event5(p: real): real {
    var q := 1.0 - p;
    10.0 * Pow(p, 3) * Pow(q, 2) + 5.0 * Pow(p, 4) * q
  }

  function Event6(p: real): real {
    var q := 1.0 - p;
    10.0 * Pow(p, 3) * Pow(q, 3) + 15.0 * Pow(p, 4) * Pow(q, 2) + 6.0 * Pow(p, 5) * q
  }

  function Event7(p: real): real {
    var q := 1.0 - p;
    35.0 * Pow(p, 4) * Pow(q, 3) + 21.0 * Pow(p, 5) * Pow(q, 2) + 7.0 * Pow(p, 6) * q
  }

  function Event10(p: real): real {
    var q := 1.0 - p;
    126.0 * Pow(p, 5) * Pow(q, 5) + 210.0 * Pow(p, 6) * Pow(q, 4) + 120.0 * Pow(p, 7) * Pow(q, 3) +
    45.0 * Pow(p, 8) * Pow(q, 2) + 10.0 * Pow(p, 9) * q
  }

  lemma Factorials()
    ensures Fact(1) == 1 && Fact(2) == 2 && Fact(3) == 6 && Fact(4) == 24 && Fact(5) == 120
    ensures Fact(6) == 720 && Fact(7) == 5040 && Fact(8) == 40320 && Fact(9) == 362880 && Fact(10) == 3628800
  {
  }

  lemma Coefficients()
    ensures Choose(5, 3) == 10 && Choose(5, 4) == 5
    ensures Choose(6, 3) == 20 && Choose(6, 4) == 15 && Choose(6, 5) == 6
    ensures Choose(7, 4) == 35 && Choose(7, 5) == 21 && Choose(7, 6) == 7
    ensures Choose(10, 5) == 252 && Choose(10, 6) == 210 && Choose(10, 7) == 120
    ensures Choose(10, 8) == 45 && Choose(10, 9) == 10
  {
    Factorials();
    hide Choose, Fact;
    ChooseFactorial(5, 3);
    ChooseFactorial(5, 4);
    ChooseFactorial(6, 3);
    ChooseFactorial(6, 4);
    ChooseFactorial(6, 5);
    ChooseFactorial(7, 4);
    ChooseFactorial(7, 5);
    ChooseFactorial(7, 6);
    ChooseFactorial(10, 5);
    ChooseFactorial(10, 6);
    ChooseFactorial(10, 7);
    ChooseFactorial(10, 8);
    ChooseFactorial(10, 9);
  }

  lemma {:induction false} PowerOne(x: real)
    ensures Pow(x, 1) == x
  {
    assert Pow(x, 0) == 1.0;
  }

  lemma PdIsEvent5(p: real)
    ensures Pd(p, 5) == Event5(p)
  {
    hide Choose, Pow;
    Coefficients();
    PowerOne(1.0 - p);
    assert TermSum(5, p, 3, 5) == TermSum(5, p, 3, 3) + Term(5, 3, p) + Term(5, 4, p);
  }

  lemma PdIsEvent6(p: real)
    ensures Pd(p, 6) == Event6(p)
  {
    hide Choose, Pow;
    Coefficients();
    PowerOne(1.0 - p);
    assert TermSum(6, p, 4, 6) == TermSum(6, p, 4, 4) + Term(6, 4, p) + Term(6, 5, p);
  }

  lemma PdIsEvent7(p: real)
    ensures Pd(p, 7) == Event7(p)
  {
    hide Choose, Pow;
    Coefficients();
    PowerOne(1.0 - p);
    assert TermSum(7, p, 4, 6) == TermSum(7, p, 4, 4) + Term(7, 4, p) + Term(7, 5, p);
    assert TermSum(7, p, 4, 7) == TermSum(7, p, 4, 6) + Term(7, 6, p);
  }

  lemma PdIsEvent10(p: real)
    ensures Pd(p, 10) == Event10(p)
  {
    hide Choose, Pow;
    Coefficients();
    PowerOne(1.0 - p);
    assert TermSum(10, p, 6, 8) == TermSum(10, p, 6, 6) + Term(10, 6, p) + Term(10, 7, p);
    assert TermSum(10, p, 6, 10) == TermSum(10, p, 6, 8) + Term(10, 8, p) + Term(10, 9, p);
  }

  // ---------------------------------------------------------------- comparing them

  lemma LowPowers(x: real)
    ensures Pow(x, 2) == x * x && Pow(x, 3) == x * x * x
    ensures Pow(x, 4) == x * x * x * x && Pow(x, 5) == x * x * x * x * x
  {
    PowerOne(x);
    assert Pow(x, 2) == x * Pow(x, 1);
  }

  lemma HighPowers(x: real)
    ensures Pow(x, 6) == Pow(x, 5) * x && Pow(x, 7) == Pow(x, 5) * (x * x)
    ensures Pow(x, 8) == Pow(x, 5) * (x * x * x) && Pow(x, 9) == Pow(x, 5) * (x * x * x * x)
  {
    LowPowers(x);
    PowerOne(x);
    hide Pow;
    PowOfSum(x, 5, 1);
    PowOfSum(x, 5, 2);
    PowOfSum(x, 5, 3);
    PowOfSum(x, 5, 4);
  }

  /** What is left of `Event10` without the fifth power of `p` and a factor `q`. */
  function Rest10(p: real, q: real): real {
    126.0 * (q * q * q * q) + 210.0 * p * (q * q * q) + 120.0 * (p * p) * (q * q) +
    45.0 * (p * p * p) * q + 10.0 * (p * p * p * p)
  }

  lemma Factor10(p: real, q: real, p5: real)
    ensures 126.0 * p5 * (q * q * q * q * q) + 210.0 * (p5 * p) * (q * q * q * q) +
            120.0 * (p5 * (p * p)) * (q * q * q) + 45.0 * (p5 * (p * p * p)) * (q * q) +
            10.0 * (p5 * (p * p * p * p)) * q == p5 * q * Rest10(p, q)
  {
  }

  lemma Event10Factored(p: real)
    ensures Event10(p) == Pow(p, 5) * (1.0 - p) * Rest10(p, 1.0 - p)
  {
    hide Pow, Rest10;
    LowPowers(1.0 - p);
    HighPowers(p);
    Factor10(p, 1.0 - p, Pow(p, 5));
  }

  lemma ScaleOrder(a: real, b: real, c: real, x: real, y: real)
    requires a <= b && c >= 0.0 && x == a * c && y == b * c
    ensures x <= y
  {
    assert (b - a) * c >= 0.0;
  }

  lemma ScaleStrictly(a: real, b: real, c: real, x: real, y: real)
    requires a < b && c > 0.0 && x == a * c && y == b * c
    ensures x < y
  {
    assert (b - a) * c > 0.0;
  }

  lemma {:induction false} PowPositive(x: real, n: nat)
    requires x > 0.0
    ensures Pow(x, n) > 0.0
  {
    if n > 0 {
      PowPositive(x, n - 1);
      PositiveProduct(x, Pow(x, n - 1));
    }
  }

  lemma Rest10Expanded(p: real)
    ensures Rest10(p, 1.0 - p) ==
              126.0 - 294.0 * p + 246.0 * (p * p) - 69.0 * (p * p * p) + p * p * p * p
  {
  }

  /** For error rates up to 0.3. */
  lemma Rest10Small(p: real)
    requires 0.0 <= p <= 0.3
    ensures (p * p) * (11.0 * Rest10(p, 1.0 - p)) < 40.0 * (2.0 - p)
  {
    Rest10Expanded(p);
    hide Rest10;
    var g, p2 := Rest10(p, 1.0 - p), p * p;
    var p3 := p2 * p;
    ScaleOrder(p, 0.3, p, p2, 0.3 * p);
    ScaleOrder(0.0, p, p, 0.0, p2);
    ScaleOrder(0.0, p, p2, 0.0, p3);
    ScaleOrder(p, 1.0, p3, p * p * p * p, p3);
    var w := 11.0 * (126.0 - 220.2 * p);
    assert 11.0 * g <= w;
    ScaleOrder(11.0 * g, w, p2, p2 * (11.0 * g), w * p2);
    ScaleOrder(p2, 0.3 * p, w, w * p2, 0.3 * p * w);
    assert 0.3 * p * w == 415.8 * p - 726.66 * p2;
    SquareAboveTangent(p, 0.31, p2);
  }

  lemma SquareAboveTangent(p: real, a: real, p2: real)
    requires p2 == p * p
    ensures p2 >= 2.0 * a * p - a * a
  {
    var d := p - a;
    assert d * d == p2 - 2.0 * a * p + a * a;
    if d >= 0.0 { ScaleOrder(0.0, d, d, 0.0, d * d); } else { ScaleOrder(0.0, -d, -d, 0.0, d * d); }
  }

  lemma Event5Factored(p: real)
    ensures Event5(p) == Pow(p, 3) * (1.0 - p) * (5.0 * (2.0 - p))
  {
    PowOfSum(p, 3, 1);
    PowerOne(p);
    LowPowers(1.0 - p);
    hide Pow;
    FactorFive(Pow(p, 3), p, 1.0 - p);
  }

  lemma FactorFive(x: real, p: real, q: real)
    requires p + q == 1.0
    ensures 10.0 * x * (q * q) + 5.0 * (x * p) * q == x * q * (5.0 * (2.0 - p))
  {
    assert 2.0 - p == 2.0 * q + p;
    assert x * q * (5.0 * (2.0 * q + p)) == 10.0 * x * (q * q) + 5.0 * (x * p) * q;
  }

  /** From three errors in ten on, the weaker code's bound says nothing any more. */
  lemma WeakerCodeFails(p: real)
    requires 0.3 <= p <= 0.5
    ensures 8.0 * Event5(p) >= 1.0
  {
    Event5Factored(p);
    LowPowers(p);
    hide Pow;
    if p <= 0.35 {
      CubeAtLeast(p, 0.3);
      TailAtLeast(Pow(p, 3), 0.027, p, 0.35);
    } else {
      CubeAtLeast(p, 0.35);
      TailAtLeast(Pow(p, 3), 0.0428, p, 0.5);
    }
  }

  lemma CubeAtLeast(p: real, a: real)
    requires 0.0 <= a <= p
    ensures a * a * a <= p * p * p
  {
    ScaleOrder(a, p, a, a * a, p * a);
    ScaleOrder(a, p, p, p * a, p * p);
    ScaleOrder(a * a, p * p, a, a * a * a, p * p * a);
    ScaleOrder(0.0, p, p, 0.0, p * p);
    ScaleOrder(a, p, p * p, p * p * a, p * p * p);
  }

  lemma TailAtLeast(x: real, a: real, p: real, b: real)
    requires 0.0 <= a <= x && p <= b <= 1.0
    ensures x * (1.0 - p) * (5.0 * (2.0 - p)) >= a * (1.0 - b) * (5.0 * (2.0 - b))
  {
    var u, v := 5.0 * (2.0 - b), 5.0 * (2.0 - p);
    ScaleOrder(a, x, 1.0 - b, a * (1.0 - b), x * (1.0 - b));
    ScaleOrder(1.0 - b, 1.0 - p, x, x * (1.0 - b), x * (1.0 - p));
    ScaleOrder(a * (1.0 - b), x * (1.0 - p), u, a * (1.0 - b) * u, x * (1.0 - p) * u);
    ScaleOrder(0.0, x, 1.0 - p, 0.0, x * (1.0 - p));
    ScaleOrder(u, v, x * (1.0 - p), x * (1.0 - p) * u, x * (1.0 - p) * v);
  }

  /** Eleven events of ten against eight of five: the former are rarer, unless the latter are certain. */
  lemma TenAgainstFive(p: real)
    requires 0.0 < p <= 0.5
    ensures 11.0 * Event10(p) < 8.0 * Event5(p) || 8.0 * Event5(p) >= 1.0
  {
    hide Pow, Rest10, Event10, Event5;
    if p <= 0.3 {
      Event10Factored(p);
      Event5Factored(p);
      Rest10Small(p);
      FifthPower(p);
      PowPositive(p, 3);
      CommonFactor(Event10(p), Event5(p), Pow(p, 3), p * p, p, 1.0 - p, Rest10(p, 1.0 - p));
    } else {
      WeakerCodeFails(p);
    }
  }

  lemma FifthPower(p: real)
    ensures Pow(p, 5) == Pow(p, 3) * (p * p)
  {
    PowOfSum(p, 3, 2);
    LowPowers(p);
    hide Pow;
  }

  lemma CommonFactor(e10: real, e5: real, x: real, p2: real, p: real, q: real, g: real)
    requires x > 0.0 && q > 0.0 && p2 * (11.0 * g) < 40.0 * (2.0 - p)
    requires e10 == (x * p2) * q * g && e5 == x * q * (5.0 * (2.0 - p))
    ensures 11.0 * e10 < 8.0 * e5
  {
    PositiveProduct(x, q);
    var strong, weak := p2 * (11.0 * g), 40.0 * (2.0 - p);
    assert 11.0 * e10 == strong * (x * q);
    assert 8.0 * e5 == weak * (x * q);
    ScaleStrictly(strong, weak, x * q, 11.0 * e10, 8.0 * e5);
  }

  /** One event of six and sixteen of seven against eight of five and thirty-one of six. */
  lemma SixAgainstFive(p: real)
    requires 0.0 < p <= 0.5
    ensures Event6(p) + 16.0 * Event7(p) < 8.0 * Event5(p) + 31.0 * Event6(p)
  {
    hide Pow;
    var q := 1.0 - p;
    PowOfSum(p, 3, 1);
    PowOfSum(p, 3, 2);
    PowOfSum(p, 3, 3);
    PowerOne(p);
    LowPowers(p);
    LowPowers(q);
    PowPositive(p, 3);
    var x := Pow(p, 3);
    SixRestSmall(p, q);
    SevenFactored(x, p, q);
    RestFactored(x, p, q);
    PositiveProduct(x, q);
    Outweighed(16.0 * Event7(p), 8.0 * Event5(p) + 30.0 * Event6(p), p, q, x * q);
  }

  lemma Outweighed(seven: real, rest: real, p: real, q: real, c: real)
    requires c > 0.0
    requires 560.0 * p * (q * q) + 336.0 * (p * p) * q + 112.0 * (p * p * p) <
             80.0 * q + 40.0 * p + 300.0 * (q * q) + 450.0 * p * q + 180.0 * (p * p)
    requires seven == (560.0 * p * (q * q) + 336.0 * (p * p) * q + 112.0 * (p * p * p)) * c
    requires rest == (80.0 * q + 40.0 * p + 300.0 * (q * q) + 450.0 * p * q + 180.0 * (p * p)) * c
    ensures seven < rest
  {
    var strong := 560.0 * p * (q * q) + 336.0 * (p * p) * q + 112.0 * (p * p * p);
    var weak := 80.0 * q + 40.0 * p + 300.0 * (q * q) + 450.0 * p * q + 180.0 * (p * p);
    ScaleStrictly(strong, weak, c, seven, rest);
  }

  lemma SevenFactored(x: real, p: real, q: real)
    ensures 16.0 * (35.0 * (x * p) * (q * q * q) + 21.0 * (x * (p * p)) * (q * q) + 7.0 * (x * (p * p * p)) * q) ==
            (560.0 * p * (q * q) + 336.0 * (p * p) * q + 112.0 * (p * p * p)) * (x * q)
  {
  }

  lemma RestFactored(x: real, p: real, q: real)
    ensures 8.0 * (10.0 * x * (q * q) + 5.0 * (x * p) * q) +
            30.0 * (10.0 * x * (q * q * q) + 15.0 * (x * p) * (q * q) + 6.0 * (x * (p * p)) * q) ==
            (80.0 * q + 40.0 * p + 300.0 * (q * q) + 450.0 * p * q + 180.0 * (p * p)) * (x * q)
  {
  }

  lemma SixRestSmall(p: real, q: real)
    requires 0.0 < p <= 0.5 && p + q == 1.0
    ensures 560.0 * p * (q * q) + 336.0 * (p * p) * q + 112.0 * (p * p * p) <
            80.0 * q + 40.0 * p + 300.0 * (q * q) + 450.0 * p * q + 180.0 * (p * p)
  {
    PositiveProduct(p, p);
    PositiveProduct(q, q);
    PositiveProduct(p, q);
    ScaleOrder(p, 0.5, q * q, p * (q * q), 0.5 * (q * q));
    ScaleOrder(p, 0.5, p * q, (p * p) * q, 0.5 * (p * q));
    ScaleOrder(p, 0.5, p * p, p * p * p, 0.5 * (p * p));
  }

  // ---------------------------------------------------------------- every mode

  ghost predicate OfdmMode(mode: WifiMode) {
    && (mode.modulationClass == ErpOfdm || mode.modulationClass == Ofdm)
    && mode.phyRate > 0 && mode.constellationSize in {2, 4, 16, 64}
  }

  /** The rate of the stronger code of a constellation. */
  function StrongRate(constellationSize: nat): CodeRate {
    if constellationSize == 64 then Rate23 else Rate12
  }

  /** The probability that a bit is received wrongly, by the constellation: its bits per symbol, the
      share of a symbol error that falls to one axis, and the distance of its points. */
  function BitErrorRate(lib: Library, constellationSize: nat, energy: real): real {
    if constellationSize == 2 then lib.erfc(lib.sqrt(energy)) / 2.0
    else if constellationSize == 4 then QamBits(0.5 * lib.erfc(lib.sqrt(energy))) / 2.0
    else if constellationSize == 16 then QamBits(0.75 * lib.erfc(lib.sqrt(0.4 * energy))) / 4.0
    else QamBits(0.875 * lib.erfc(lib.sqrt(energy / 7.0))) / 6.0
  }

  /** Either of two axes. */
  function QamBits(axis: real): real { 2.0 * axis - axis * axis }

  /** The expected number of error events a decoder may start on, first the lightest ones. */
  function EventBound(mode: WifiMode, p: real): real {
    if mode.constellationSize == 2 then
      if mode.codeRate == Rate12 then 11.0 * Event10(p) else 8.0 * Event5(p)
    else if mode.constellationSize == 64 then
      if mode.codeRate == Rate23 then Event6(p) + 16.0 * Event7(p) else 8.0 * Event5(p) + 31.0 * Event6(p)
    else
      if mode.codeRate == Rate12 then 11.0 * Event10(p) else 8.0 * Event5(p) + 31.0 * Event6(p)
  }

  function Energy(mode: WifiMode, snr: real): real
    requires mode.phyRate > 0
  {
    snr * mode.bandwidth as real / mode.phyRate as real
  }

  function BitSuccess(lib: Library, mode: WifiMode, snr: real): real
    requires mode.phyRate > 0
  {
    var events := EventBound(mode, BitErrorRate(lib, mode.constellationSize, Energy(mode, snr)));
    if events < 1.0 then 1.0 - events else 0.0
  }

  lemma PowOfZero(x: real, n: nat)
    requires x == 0.0 && n > 0
    ensures Pow(x, n) == 0.0
  {
  }

  lemma {:induction false} PowOfOne(n: nat)
    ensures Pow(1.0, n) == 1.0
  {
    if n > 0 { PowOfOne(n - 1); }
  }

  lemma NoWeight(c: real, x: real, y: real)
    requires x == 0.0
    ensures c * x * y == 0.0
  {
  }

  /** Without bit errors there are no error events. */
  lemma NoEvents(p: real)
    requires p == 0.0
    ensures Event5(p) == 0.0 && Event6(p) == 0.0 && Event7(p) == 0.0 && Event10(p) == 0.0
  {
    NoEvent5(p);
    NoEvent6(p);
    NoEvent7(p);
    NoEvent10(p);
  }

  lemma NoTerm(c: real, p: real, n: nat, y: real)
    requires p == 0.0 && n > 0
    ensures c * Pow(p, n) * y == 0.0
  {
    PowOfZero(p, n);
    hide Pow;
    NoWeight(c, Pow(p, n), y);
  }

  lemma NoEvent5(p: real)
    requires p == 0.0
    ensures Event5(p) == 0.0
  {
    hide Pow;
    NoTerm(10.0, p, 3, Pow(1.0 - p, 2));
    NoTerm(5.0, p, 4, 1.0 - p);
  }

  lemma NoEvent6(p: real)
    requires p == 0.0
    ensures Event6(p) == 0.0
  {
    hide Pow;
    NoTerm(10.0, p, 3, Pow(1.0 - p, 3));
    NoTerm(15.0, p, 4, Pow(1.0 - p, 2));
    NoTerm(6.0, p, 5, 1.0 - p);
  }

  lemma NoEvent7(p: real)
    requires p == 0.0
    ensures Event7(p) == 0.0
  {
    hide Pow;
    NoTerm(35.0, p, 4, Pow(1.0 - p, 3));
    NoTerm(21.0, p, 5, Pow(1.0 - p, 2));
    NoTerm(7.0, p, 6, 1.0 - p);
  }

  lemma NoEvent10(p: real)
    requires p == 0.0
    ensures Event10(p) == 0.0
  {
    hide Pow;
    NoTerm(126.0, p, 5, Pow(1.0 - p, 5));
    NoTerm(210.0, p, 6, Pow(1.0 - p, 4));
    NoTerm(120.0, p, 7, Pow(1.0 - p, 3));
    NoTerm(45.0, p, 8, Pow(1.0 - p, 2));
    NoTerm(10.0, p, 9, 1.0 - p);
  }

  /** `GetQamBer`, its square written out. */
  lemma QamValue(lib: Library, snr: real, m: nat, spread: nat, rate: nat)
    requires Sound(lib) && rate > 0 && m in {4, 16, 64}
    ensures Log2(lib, m as real) > 0.0 && lib.sqrt(m as real) > 0.0
    ensures GetQamBer(lib, snr, m, spread, rate) ==
              QamBits((1.0 - 1.0 / lib.sqrt(m as real)) *
                      lib.erfc(lib.sqrt((1.5 * Log2(lib, m as real) * EbNo(snr, spread, rate)) /
                                        (m as real - 1.0)))) / Log2(lib, m as real)
  {
    hide Log2, Sound, EbNo;
    Constellations(lib);
    TwoAxes((1.0 - 1.0 / lib.sqrt(m as real)) *
            lib.erfc(lib.sqrt((1.5 * Log2(lib, m as real) * EbNo(snr, spread, rate)) /
                              (m as real - 1.0))));
    hide Pow, QamBits;
  }

  lemma TwoAxes(axis: real)
    ensures 1.0 - Pow(1.0 - axis, 2) == QamBits(axis)
  {
    LowPowers(1.0 - axis);
    assert (1.0 - axis) * (1.0 - axis) == 1.0 - 2.0 * axis + axis * axis;
  }

  lemma QamRate(lib: Library, snr: real, m: nat, spread: nat, rate: nat)
    requires Sound(lib) && rate > 0 && m in {4, 16, 64}
    ensures GetQamBer(lib, snr, m, spread, rate) == BitErrorRate(lib, m, EbNo(snr, spread, rate))
  {
    hide Sound, Log2, GetQamBer, QamBits, EbNo;
    Constellations(lib);
    QamValue(lib, snr, m, spread, rate);
    var e, bits := EbNo(snr, spread, rate), Log2(lib, m as real);
    if m == 4 {
      Argument(bits, 2.0, e, 3.0, e);
      OneAxis(lib, lib.sqrt(m as real), 2.0, 0.5, e);
    } else if m == 16 {
      Argument(bits, 4.0, e, 15.0, 0.4 * e);
      OneAxis(lib, lib.sqrt(m as real), 4.0, 0.75, 0.4 * e);
    } else {
      Argument(bits, 6.0, e, 63.0, e / 7.0);
      OneAxis(lib, lib.sqrt(m as real), 8.0, 0.875, e / 7.0);
    }
  }

  lemma OneAxis(lib: Library, root: real, r: real, share: real, arg: real)
    requires root == r && r > 0.0 && share * r == r - 1.0
    ensures QamBits((1.0 - 1.0 / root) * lib.erfc(lib.sqrt(arg))) == QamBits(share * lib.erfc(lib.sqrt(arg)))
  {
    assert 1.0 - 1.0 / root == share;
    SameBits(1.0 - 1.0 / root, share, lib.erfc(lib.sqrt(arg)));
    hide QamBits;
  }

  lemma SameBits(a: real, b: real, x: real)
    requires a == b
    ensures QamBits(a * x) == QamBits(b * x)
  {
  }

  lemma Argument(bits: real, b: real, e: real, d: real, arg: real)
    requires bits == b && d > 0.0 && 1.5 * b * e == arg * d
    ensures (1.5 * bits * e) / d == arg
  {
  }

  lemma FecBpskIs(lib: Library, snr: real, nbits: nat, spread: nat, rate: nat, dFree: nat, adFree: nat, events: real)
    requires rate > 0
    requires var p := GetBpskBer(lib, snr, spread, rate);
             events == adFree as real * Pd(p, dFree) && (p == 0.0 ==> events == 0.0)
    ensures GetFecBpskBer(lib, snr, nbits, spread, rate, dFree, adFree) ==
              Pow(if events < 1.0 then 1.0 - events else 0.0, nbits)
  {
    PowOfOne(nbits);
    hide Pow, Pd, GetBpskBer;
  }

  lemma FecQamIs(lib: Library, snr: real, nbits: nat, spread: nat, rate: nat,
                 m: nat, dFree: nat, adFree: nat, adFreePlusOne: nat, events: real)
    requires Sound(lib) && rate > 0 && m in {4, 16, 64}
    requires var p := GetQamBer(lib, snr, m, spread, rate);
             && events == adFree as real * Pd(p, dFree) + adFreePlusOne as real * Pd(p, dFree + 1)
             && (p == 0.0 ==> events == 0.0)
    ensures GetFecQamBer(lib, snr, nbits, spread, rate, m, dFree, adFree, adFreePlusOne) ==
              Pow(if events < 1.0 then 1.0 - events else 0.0, nbits)
  {
    PowOfOne(nbits);
    hide Pow, Pd, GetQamBer, Sound;
  }

  /** In every OFDM mode each bit of a chunk succeeds with one probability, independently. */
  lemma ChunkIsPower(lib: Library, mode: WifiMode, snr: real, nbits: nat)
    requires Sound(lib) && OfdmMode(mode)
    ensures GetChunkSuccessRate(lib, mode, snr, nbits) == Pow(BitSuccess(lib, mode, snr), nbits)
  {
    hide Pow, Pd, GetBpskBer, GetQamBer, GetFecBpskBer, GetFecQamBer, Event5, Event6, Event7, Event10;
    hide Sound, BitErrorRate, Energy;
    var m, spread, rate := mode.constellationSize, mode.bandwidth, mode.phyRate;
    var p := BitErrorRate(lib, m, Energy(mode, snr));
    var events := EventBound(mode, p);
    AllEvents(p);
    RateIs(lib, mode, snr);
    if m == 2 {
      if mode.codeRate == Rate12 { FecBpskIs(lib, snr, nbits, spread, rate, 10, 11, events); }
      else { FecBpskIs(lib, snr, nbits, spread, rate, 5, 8, events); }
    } else {
      if mode.codeRate != StrongRate(m) {
        FecQamIs(lib, snr, nbits, spread, rate, m, 5, 8, 31, events);
      } else if m == 64 {
        FecQamIs(lib, snr, nbits, spread, rate, m, 6, 1, 16, events);
      } else {
        FecQamIs(lib, snr, nbits, spread, rate, m, 10, 11, 0, events);
      }
    }
  }

  lemma EnergyIs(mode: WifiMode, snr: real)
    requires mode.phyRate > 0
    ensures EbNo(snr, mode.bandwidth, mode.phyRate) == Energy(mode, snr)
  {
  }

  lemma RateIs(lib: Library, mode: WifiMode, snr: real)
    requires Sound(lib) && OfdmMode(mode)
    ensures var p := BitErrorRate(lib, mode.constellationSize, Energy(mode, snr));
            if mode.constellationSize == 2 then GetBpskBer(lib, snr, mode.bandwidth, mode.phyRate) == p
            else GetQamBer(lib, snr, mode.constellationSize, mode.bandwidth, mode.phyRate) == p
  {
    hide Sound, GetQamBer, QamBits, EbNo;
    EnergyIs(mode, snr);
    if mode.constellationSize != 2 {
      QamRate(lib, snr, mode.constellationSize, mode.bandwidth, mode.phyRate);
    }
  }

  lemma AllEvents(p: real)
    ensures Pd(p, 5) == Event5(p) && Pd(p, 6) == Event6(p) && Pd(p, 7) == Event7(p) && Pd(p, 10) == Event10(p)
    ensures p == 0.0 ==> Event5(p) == 0.0 && Event6(p) == 0.0 && Event7(p) == 0.0 && Event10(p) == 0.0
  {
    hide Pd, Event5, Event6, Event7, Event10;
    PdIsEvent5(p);
    PdIsEvent6(p);
    PdIsEvent7(p);
    PdIsEvent10(p);
    if p == 0.0 { NoEvents(p); }
  }

  /** Nothing is received in any other mode, but for the four DSSS rates. */
  lemma OtherModesFail(lib: Library, mode: WifiMode, snr: real, nbits: nat)
    requires Sound(lib) && mode.phyRate > 0 && !OfdmMode(mode)
    ensures GetChunkSuccessRate(lib, mode, snr, nbits) ==
              if mode.modulationClass == Dsss && mode.dataRate in {1000000, 2000000, 5500000, 11000000}
              then lib.dsss(mode.dataRate, snr, nbits) else 0.0
  {
  }

  // ---------------------------------------------------------------- stronger codes

  /** Two modes of one constellation, the first with its stronger code and the second without. */
  ghost predicate SameButWeaker(strong: WifiMode, weak: WifiMode) {
    && OfdmMode(strong) && weak == strong.(codeRate := weak.codeRate)
    && strong.codeRate == StrongRate(strong.constellationSize) && weak.codeRate != strong.codeRate
  }

  lemma PositiveTerm(c: real, x: real, i: nat, y: real, j: nat)
    requires c > 0.0 && x > 0.0 && y > 0.0
    ensures c * Pow(x, i) * Pow(y, j) > 0.0
  {
    PowPositive(x, i);
    PowPositive(y, j);
    hide Pow;
    PositiveProduct(c, Pow(x, i));
    PositiveProduct(c * Pow(x, i), Pow(y, j));
  }

  lemma Event5Positive(p: real)
    requires 0.0 < p < 1.0
    ensures Event5(p) > 0.0
  {
    hide Pow;
    PowerOne(1.0 - p);
    PositiveTerm(10.0, p, 3, 1.0 - p, 2);
    PositiveTerm(5.0, p, 4, 1.0 - p, 1);
  }

  lemma Event6Positive(p: real)
    requires 0.0 < p < 1.0
    ensures Event6(p) > 0.0
  {
    hide Pow;
    PowerOne(1.0 - p);
    PositiveTerm(10.0, p, 3, 1.0 - p, 3);
    PositiveTerm(15.0, p, 4, 1.0 - p, 2);
    PositiveTerm(6.0, p, 5, 1.0 - p, 1);
  }

  lemma Event7Positive(p: real)
    requires 0.0 < p < 1.0
    ensures Event7(p) > 0.0
  {
    hide Pow;
    PowerOne(1.0 - p);
    PositiveTerm(35.0, p, 4, 1.0 - p, 3);
    PositiveTerm(21.0, p, 5, 1.0 - p, 2);
    PositiveTerm(7.0, p, 6, 1.0 - p, 1);
  }

  lemma Event10Positive(p: real)
    requires 0.0 < p < 1.0
    ensures Event10(p) > 0.0
  {
    hide Pow;
    PowerOne(1.0 - p);
    PositiveTerm(126.0, p, 5, 1.0 - p, 5);
    PositiveTerm(210.0, p, 6, 1.0 - p, 4);
    PositiveTerm(120.0, p, 7, 1.0 - p, 3);
    PositiveTerm(45.0, p, 8, 1.0 - p, 2);
    PositiveTerm(10.0, p, 9, 1.0 - p, 1);
  }

  /** The stronger code expects fewer error events, unless the weaker one is sure of some. */
  lemma FewerEvents(strong: WifiMode, weak: WifiMode, p: real)
    requires SameButWeaker(strong, weak) && 0.0 < p <= 0.5
    ensures 0.0 < EventBound(strong, p)
    ensures EventBound(strong, p) < EventBound(weak, p) || EventBound(weak, p) >= 1.0
  {
    hide Event5, Event6, Event7, Event10;
    Event5Positive(p);
    Event6Positive(p);
    Event7Positive(p);
    Event10Positive(p);
    if strong.constellationSize == 64 { SixAgainstFive(p); } else { TenAgainstFive(p); }
  }

  lemma BerAtMostHalf(lib: Library, mode: WifiMode, snr: real)
    requires Sound(lib) && OfdmMode(mode) && snr >= 0.0
    ensures 0.0 <= BitErrorRate(lib, mode.constellationSize, Energy(mode, snr)) <= 0.5
  {
    hide Sound, GetQamBer, GetBpskBer, BitErrorRate, Energy;
    RateIs(lib, mode, snr);
    if mode.constellationSize == 2 {
      BpskBerAtMostHalf(lib, snr, mode.bandwidth, mode.phyRate);
    } else {
      QamBerAtMostHalf(lib, snr, mode.constellationSize, mode.bandwidth, mode.phyRate);
    }
  }

  lemma {:induction false} PowStrict(y: real, x: real, n: nat)
    requires 0.0 <= y < x && n > 0
    ensures Pow(y, n) < Pow(x, n)
  {
    PowMonotone(y, x, n - 1);
    PowPositive(x, n - 1);
    var a, b := Pow(x, n - 1), Pow(y, n - 1);
    ScaleOrder(b, a, y, y * b, y * a);
    ScaleStrictly(y, x, a, y * a, x * a);
  }

  lemma {:induction false} PowInside(x: real, n: nat)
    requires 0.0 <= x <= 1.0
    ensures 0.0 < Pow(x, n) < 1.0 <==> n > 0 && 0.0 < x < 1.0
  {
    if n > 0 {
      if x == 0.0 { PowOfZero(x, n); }
      if x == 1.0 { PowOfOne(n); }
      if 0.0 < x < 1.0 {
        PowPositive(x, n);
        PowStrict(x, 1.0, n);
        PowOfOne(n);
      }
    } else {
      assert Pow(x, 0) == 1.0;
    }
  }

  /** The stronger code of a constellation is never worse, and better exactly where its success rate is
      neither zero nor one. */
  lemma StrongerCodeIsBetterIff(lib: Library, strong: WifiMode, weak: WifiMode, snr: real, nbits: nat)
    requires Sound(lib) && SameButWeaker(strong, weak) && snr >= 0.0
    ensures var s, w := GetChunkSuccessRate(lib, strong, snr, nbits), GetChunkSuccessRate(lib, weak, snr, nbits);
            w <= s && (w < s <==> 0.0 < s < 1.0)
  {
    hide Sound, GetChunkSuccessRate, BitErrorRate, Energy, EventBound, Pow;
    var p := BitErrorRate(lib, strong.constellationSize, Energy(strong, snr));
    SameEnergy(strong, weak, snr);
    BerAtMostHalf(lib, strong, snr);
    ChunkIsPower(lib, strong, snr, nbits);
    ChunkIsPower(lib, weak, snr, nbits);
    if p == 0.0 {
      NoBound(strong, p);
      NoBound(weak, p);
    } else {
      FewerEvents(strong, weak, p);
    }
    var s, w := BitSuccess(lib, strong, snr), BitSuccess(lib, weak, snr);
    PowInside(s, nbits);
    PowMonotone(w, s, nbits);
    if w < s && nbits > 0 { PowStrict(w, s, nbits); }
    if nbits == 0 { EmptyPower(s, w); }
  }

  lemma EmptyPower(s: real, w: real)
    ensures Pow(s, 0) == 1.0 && Pow(w, 0) == 1.0
  {
  }

  lemma SameEnergy(strong: WifiMode, weak: WifiMode, snr: real)
    requires SameButWeaker(strong, weak)
    ensures Energy(strong, snr) == Energy(weak, snr)
  {
  }

  lemma NoBound(mode: WifiMode, p: real)
    requires p == 0.0
    ensures EventBound(mode, p) == 0.0
  {
    hide Event5, Event6, Event7, Event10;
    NoEvents(p);
  }
}
