/**
 * A binomial distribution whose mean is a whole number has it as a median:
 * fewer successes, and more successes, than the mean each have probability at
 * most one half.
 */
module BinomialMedian {
  import opened Binomial

  // ---- Neighbouring terms ------------------------------------------------------------------

  lemma {:induction false} Absorb(n: nat, i: nat)
    requires 0 < i && 0 < n
    ensures i * Choose(n, i) == n * Choose(n - 1, i - 1)
  {
    if n == 1 {
      assert Choose(1, i) == Choose(0, i - 1) + Choose(0, i);
    } else if i == 1 {
      Absorb(n - 1, 1);
      assert Choose(n, 1) == Choose(n - 1, 0) + Choose(n - 1, 1);
    } else {
      Absorb(n - 1, i - 1);
      Absorb(n - 1, i);
      assert Choose(n, i) == Choose(n - 1, i - 1) + Choose(n - 1, i);
      assert Choose(n - 1, i - 1) == Choose(n - 2, i - 2) + Choose(n - 2, i - 1);
      hide Choose;
      AbsorbSums(n, i, Choose(n - 1, i - 1), Choose(n - 1, i), Choose(n - 2, i - 2), Choose(n - 2, i - 1));
    }
  }

  lemma AbsorbSums(n: nat, i: nat, a: nat, b: nat, c: nat, d: nat)
    requires a == c + d && (i - 1) * a == (n - 1) * c && i * b == (n - 1) * d
    ensures i * (a + b) == n * a
  {
    assert i * (a + b) == (i - 1) * a + a + i * b;
    assert (n - 1) * c + (n - 1) * d == (n - 1) * (c + d);
  }

  lemma NextChoice(n: nat, i: nat)
    requires i < n
    ensures (i + 1) * Choose(n, i + 1) == (n - i) * Choose(n, i)
  {
    Absorb(n, i + 1);
    if i == 0 {
      assert Choose(n, 0) == 1 && Choose(n - 1, 0) == 1;
    } else {
      Absorb(n, i);
      assert Choose(n, i) == Choose(n - 1, i - 1) + Choose(n - 1, i);
      hide Choose;
      NextChoiceSums(n, i, Choose(n, i), Choose(n - 1, i - 1), Choose(n - 1, i));
    }
  }

  lemma NextChoiceSums(n: nat, i: nat, a: nat, b: nat, c: nat)
    requires i < n && a == b + c && i * a == n * b
    ensures n * c == (n - i) * a
  {
    assert n * a == n * b + n * c;
    assert (n - i) * a == n * a - i * a;
  }

  lemma ScaleOne(k: real, c: real, x: real, y: real)
    ensures k * (c * x * y) == (k * c) * x * y
  {
    assert k * (c * x * y) == k * (c * (x * y));
  }

  lemma ScaleBoth(a: real, d: real, b: real, c: real, x: real, y: real, u: real, v: real)
    requires a * d == b * c && u == d * x * y && v == c * x * y
    ensures a * u == b * v
  {
    ScaleOne(a, d, x, y);
    ScaleOne(b, c, x, y);
  }

  lemma CastProduct(x: nat, y: nat)
    ensures x as real * y as real == (x * y) as real
  {
  }

  lemma CastBoth(a: nat, x: nat, b: nat, y: nat)
    requires a * x == b * y
    ensures a as real * x as real == b as real * y as real
  {
    CastProduct(a, x);
    CastProduct(b, y);
  }

  lemma NextChoiceAsReal(n: nat, i: nat)
    requires i < n
    ensures (i + 1) as real * Choose(n, i + 1) as real == (n - i) as real * Choose(n, i) as real
  {
    hide *;
    NextChoice(n, i);
    CastBoth(i + 1, Choose(n, i + 1), n - i, Choose(n, i));
  }

  /** A term weighed by its probability of failure, and its neighbour by success, share their powers. */
  lemma SharedPowers(n: nat, i: nat, p: real, q: real) returns (c: real, d: real, x: real, y: real)
    requires i < n && q == 1.0 - p
    ensures q * Term(n, i + 1, p) == d * x * y && p * Term(n, i, p) == c * x * y
    ensures (i + 1) as real * d == (n - i) as real * c
  {
    hide Term, Pow, Choose;
    c, d, x, y := Choose(n, i) as real, Choose(n, i + 1) as real, Pow(p, i + 1), Pow(q, n - i);
    NextChoiceAsReal(n, i);
    TermFails(n, i + 1, p);
    TermSucceeds(n, i + 1, p);
    assert n + 1 - (i + 1) == n - i;
  }

  lemma NextTerm(n: nat, i: nat, p: real, q: real)
    requires i < n && q == 1.0 - p
    ensures (i + 1) as real * (q * Term(n, i + 1, p)) == (n - i) as real * (p * Term(n, i, p))
  {
    hide *;
    var c, d, x, y := SharedPowers(n, i, p, q);
    ScaleBoth((i + 1) as real, d, (n - i) as real, c, x, y, q * Term(n, i + 1, p), p * Term(n, i, p));
  }

  lemma Reorder(a: real, q: real, m: real, x: real)
    ensures (a * (q * m)) * x == m * (a * (q * x))
  {
    assert (a * (q * m)) * x == (a * q) * (m * x);
    assert m * (a * (q * x)) == (a * q) * (m * x);
  }

  /** Multiplying an equation by `m`. */
  lemma TimesBoth(a: real, q: real, x: real, b: real, p: real, y: real, m: real, u: real, v: real)
    requires a * (q * x) == b * (p * y) && q * m == u && p * m == v
    ensures (a * u) * x == (b * v) * y
  {
    Reorder(a, q, m, x);
    Reorder(b, p, m, y);
  }

  /** The terms of `n` trials with mean `s`: neither all nor none succeed on average. */
  ghost predicate Mean(n: nat, s: nat, p: real) {
    0 < s < n && Probability(p) && p * n as real == s as real
  }

  /** A product of whole numbers. */
  ghost function Coef(a: nat, b: nat): real {
    (a * b) as real
  }

  lemma CoefIsProduct(a: nat, b: nat)
    ensures Coef(a, b) == a as real * b as real
  {
  }

  lemma CoefSign(a: nat, b: nat)
    ensures Coef(a, b) >= 0.0 && (a > 0 && b > 0 ==> Coef(a, b) > 0.0)
  {
    assert a * b >= 0;
    assert a > 0 && b > 0 ==> a * b > 0;
  }

  lemma Complement(p: real, m: real, v: real)
    requires p * m == v
    ensures (1.0 - p) * m == m - v
  {
  }

  lemma NextMeanTerm(n: nat, s: nat, p: real, i: nat)
    requires Mean(n, s, p) && i < n
    ensures Coef(i + 1, n - s) * Term(n, i + 1, p) == Coef(n - i, s) * Term(n, i, p)
  {
    hide Term, Coef;
    var q := 1.0 - p;
    NextTerm(n, i, p, q);
    Complement(p, n as real, s as real);
    CoefIsProduct(i + 1, n - s);
    CoefIsProduct(n - i, s);
    TimesBoth((i + 1) as real, q, Term(n, i + 1, p), (n - i) as real, p, Term(n, i, p), n as real, (n - s) as real, s as real);
  }

  // ---- Comparing products ----------------------------------------------------------------------

  lemma Positive(x: real, y: real)
    requires x > 0.0
    ensures y > 0.0 <==> x * y > 0.0
    ensures y >= 0.0 <==> x * y >= 0.0
  {
  }

  lemma Cancel(k: real, x: real, y: real)
    requires k > 0.0 && k * x >= k * y
    ensures x >= y
  {
    Positive(k, x - y);
    assert k * (x - y) == k * x - k * y;
  }

  /** If x / u = b / a, v / y = d / c, u is at least v and (b * d) is at least (a * c), then x is at least y. */
  lemma Ratios(a: real, x: real, b: real, u: real, c: real, y: real, d: real, v: real)
    requires a > 0.0 && d > 0.0 && b >= 0.0 && c >= 0.0 && u >= v >= 0.0
    requires a * x == b * u && d * y == c * v && b * d >= a * c
    ensures x >= y
  {
    var k, l, m := a * d, b * d, a * c;
    Scale(a, x, b, u, d);
    ScaleLeft(d, y, c, v, a);
    Monotone(l, u, v) by {
      Product(b, d);
    }
    Monotone2(l, m, v);
    Positive(a, d);
    Cancel(k, x, y);
  }

  lemma Product(a: real, b: real)
    requires a >= 0.0 && b >= 0.0
    ensures a * b >= 0.0
  {
  }

  lemma ScaleLeft(a: real, x: real, b: real, u: real, d: real)
    requires a * x == b * u
    ensures (d * a) * x == (d * b) * u
  {
    assert (d * a) * x == d * (a * x);
    assert (d * b) * u == d * (b * u);
  }

  lemma Scale(a: real, x: real, b: real, u: real, d: real)
    requires a * x == b * u
    ensures (a * d) * x == (b * d) * u
  {
    assert (a * d) * x == d * (a * x);
    assert (b * d) * u == d * (b * u);
  }

  lemma Monotone(k: real, u: real, v: real)
    requires u >= v && k >= 0.0
    ensures k * u >= k * v
  {
    assert k * (u - v) >= 0.0;
    assert k * (u - v) == k * u - k * v;
  }

  lemma Monotone2(k: real, l: real, v: real)
    requires k >= l && v >= 0.0
    ensures k * v >= l * v
  {
    assert (k - l) * v >= 0.0;
    assert (k - l) * v == k * v - l * v;
  }

  // ---- Fewer successes than the mean, when at most half are expected ---------------------------

  lemma CoefTimes(a: nat, b: nat, c: nat, d: nat)
    ensures Coef(a, b) * Coef(c, d) == (a * b * (c * d)) as real
  {
    CastProduct(a * b, c * d);
  }

  lemma DifferenceOfSquares(a: nat, j: nat)
    requires j <= a
    ensures (a - j) * (a + j) == a * a - j * j
  {
  }

  lemma SquareOut(p: nat, q: nat, s: nat)
    ensures p * s * (q * s) == (p * q) * (s * s)
  {
  }

  /** Term `s + j` against term `s - 1 - j`. */
  lemma PairFactor(s: nat, m: nat, j: nat)
    requires 0 < s <= m && j < s
    ensures Coef(m + 1 - j, s) * Coef(m + 1 + j, s) >= Coef(s + j, m) * Coef(s - j, m)
  {
    hide Coef;
    CoefTimes(m + 1 - j, s, m + 1 + j, s);
    CoefTimes(s + j, m, s - j, m);
    PairFactorWhole(s, m, j);
  }

  lemma PairFactorWhole(s: nat, m: nat, j: nat)
    requires 0 < s <= m && j < s
    ensures (m + 1 - j) * s * ((m + 1 + j) * s) >= (s + j) * m * ((s - j) * m)
  {
    DifferenceOfSquares(m + 1, j);
    DifferenceOfSquares(s, j);
    SquareOut(m + 1 - j, m + 1 + j, s);
    SquareOut(s - j, s + j, m);
    SwapFactors(s - j, s + j, m);
    Squares(s, m, j);
  }

  lemma SwapFactors(p: nat, q: nat, m: nat)
    ensures p * m * (q * m) == q * m * (p * m)
  {
  }

  lemma ProductsGrow(a: nat, b: nat, c: nat, d: nat)
    requires a <= b && c <= d
    ensures a * c <= b * d
  {
    assert a * c <= b * c <= b * d;
  }

  lemma SumTimes(x: int, y: int, z: int, a: int)
    ensures (x + y - z) * a == x * a + y * a - z * a
  {
  }

  lemma Squares(s: nat, m: nat, j: nat)
    requires s <= m
    ensures ((m + 1) * (m + 1) - j * j) * (s * s) >= (s * s - j * j) * (m * m)
  {
    var a, b, c := s * s, m * m, j * j;
    ProductsGrow(s, m, s, m);
    ProductsGrow(c, c, a, b);
    assert (m + 1) * (m + 1) == b + (2 * m + 1);
    SumTimes(b, 2 * m + 1, c, a);
    SumTimes(a, 0, c, b);
    ProductsGrow(0, 2 * m + 1, 0, a);
  }

  lemma {:induction false} PairedTerms(n: nat, s: nat, p: real, j: nat)
    requires Mean(n, s, p) && s <= n - s && j < s
    ensures Term(n, s + j, p) >= Term(n, s - 1 - j, p)
  {
    hide Term, Coef;
    var m := n - s;
    TermNonNegative(n, s - 1 - j, p);
    if j == 0 {
      NextMeanTerm(n, s, p, s - 1);
      FirstPair(s, m, Term(n, s, p), Term(n, s - 1, p));
    } else {
      PairedTerms(n, s, p, j - 1);
      NextMeanTerm(n, s, p, s + j - 1);
      NextMeanTerm(n, s, p, s - 1 - j);
      TermNonNegative(n, s - j, p);
      assert s + j - 1 == s + (j - 1) && s - 1 - (j - 1) == s - j;
      PairFactor(s, m, j);
      CoefSign(s + j, m);
      CoefSign(m + 1 + j, s);
      CoefSign(m + 1 - j, s);
      CoefSign(s - j, m);
      Ratios(Coef(s + j, m), Term(n, s + j, p), Coef(m + 1 - j, s), Term(n, s + j - 1, p),
             Coef(s - j, m), Term(n, s - 1 - j, p), Coef(m + 1 + j, s), Term(n, s - j, p));
    }
  }

  lemma FirstPair(s: nat, m: nat, x: real, y: real)
    requires s > 0 && m > 0 && y >= 0.0 && Coef(s, m) * x == Coef(m + 1, s) * y
    ensures x >= y
  {
    CoefSign(s, m);
    assert Coef(m + 1, s) >= Coef(s, m) by {
      assert (m + 1) * s >= s * m;
    }
    hide Coef;
    Monotone2(Coef(m + 1, s), Coef(s, m), y);
    Cancel(Coef(s, m), x, y);
  }

  lemma {:induction false} PairsAddUp(n: nat, s: nat, p: real, j: nat)
    requires Mean(n, s, p) && s <= n - s && j <= s
    ensures Below(s + j, n, p) - Below(s, n, p) >= Below(s, n, p) - Below(s - j, n, p)
  {
    if j > 0 {
      PairsAddUp(n, s, p, j - 1);
      PairedTerms(n, s, p, j - 1);
      hide Term;
      assert Below(s + j, n, p) == Below(s + j - 1, n, p) + Term(n, s + (j - 1), p);
      assert Below(s - (j - 1), n, p) == Below(s - j, n, p) + Term(n, s - 1 - (j - 1), p);
    }
  }

  lemma {:induction false} BelowIsMonotone(j: nat, k: nat, n: nat, p: real)
    requires Probability(p) && j <= k
    ensures Below(j, n, p) <= Below(k, n, p)
    decreases k
  {
    if j < k {
      BelowIsMonotone(j, k - 1, n, p);
      BelowGrows(k, n, p);
    }
  }

  /** Fewer successes than the mean have probability at most one half. */
  lemma FewerThanMean(n: nat, s: nat, p: real)
    requires Mean(n, s, p) && s <= n - s
    ensures 2.0 * Below(s, n, p) <= 1.0
  {
    hide Term;
    PairsAddUp(n, s, p, s);
    AllOutcomes(n, p);
    BelowIsMonotone(s + s, n + 1, n, p);
    assert Below(s - s, n, p) == 0.0;
  }

  // ---- The mean ------------------------------------------------------------------------------------

  /** A term weighed by its number of successes, and one of a trial fewer, share their powers. */
  lemma WeighedPowers(n: nat, i: nat, p: real) returns (c: real, d: real, x: real, y: real)
    requires 0 < i <= n
    ensures Term(n, i, p) == c * x * y && p * Term(n - 1, i - 1, p) == d * x * y
    ensures i as real * c == n as real * d
  {
    hide Pow, Choose;
    c, d, x, y := Choose(n, i) as real, Choose(n - 1, i - 1) as real, Pow(p, i), Pow(1.0 - p, n - i);
    assert Term(n, i, p) == c * x * y;
    hide Term;
    AbsorbAsReal(n, i);
    TermSucceeds(n - 1, i, p);
    assert n - 1 + 1 - i == n - i;
  }

  lemma WeighedTerm(n: nat, i: nat, p: real)
    requires 0 < i <= n
    ensures i as real * Term(n, i, p) == n as real * (p * Term(n - 1, i - 1, p))
  {
    hide *;
    var c, d, x, y := WeighedPowers(n, i, p);
    ScaleBoth(i as real, c, n as real, d, x, y, Term(n, i, p), p * Term(n - 1, i - 1, p));
  }

  lemma AbsorbAsReal(n: nat, i: nat)
    requires 0 < i && 0 < n
    ensures i as real * Choose(n, i) as real == n as real * Choose(n - 1, i - 1) as real
  {
    hide *;
    Absorb(n, i);
    CastBoth(i, Choose(n, i), n, Choose(n - 1, i - 1));
  }

  /** The sum of (i - s) times the probability of `i` successes, over `i` below `k`. */
  ghost function Deviation(k: nat, n: nat, s: nat, p: real): real {
    if k == 0 then 0.0 else Deviation(k - 1, n, s, p) + ((k - 1) as real - s as real) * Term(n, k - 1, p)
  }

  lemma {:induction false} DeviationBelow(k: nat, n: nat, s: nat, p: real)
    requires 0 < k <= n + 1 && n > 0
    ensures Deviation(k, n, s, p) == n as real * (p * Below(k - 1, n - 1, p)) - s as real * Below(k, n, p)
  {
    hide Term;
    if k == 1 {
      assert Deviation(0, n, s, p) == 0.0 && Below(0, n, p) == 0.0 && Below(1, n, p) == Term(n, 0, p);
    } else {
      DeviationBelow(k - 1, n, s, p);
      WeighedTerm(n, k - 1, p);
      var t, u, b, c, m, x := Term(n, k - 1, p), Term(n - 1, k - 2, p), Below(k - 2, n - 1, p), Below(k - 1, n, p), n as real, (k - 1) as real;
      assert Below(k - 1, n - 1, p) == b + u && Below(k, n, p) == c + t;
      assert Deviation(k, n, s, p) == Deviation(k - 1, n, s, p) + (x - s as real) * t;
      hide Below, Deviation;
      DeviationSums(m, p, b, u, s as real, c, t, x);
    }
  }

  lemma DeviationSums(m: real, p: real, b: real, u: real, s: real, c: real, t: real, x: real)
    requires x * t == m * (p * u)
    ensures (m * (p * b) - s * c) + (x - s) * t == m * (p * (b + u)) - s * (c + t)
  {
    assert m * (p * (b + u)) == m * (p * b) + m * (p * u);
    assert s * (c + t) == s * c + s * t;
    assert (x - s) * t == x * t - s * t;
  }

  /** Above and below the mean, the deviations cancel. */
  lemma NoDeviation(n: nat, s: nat, p: real)
    requires Mean(n, s, p)
    ensures Deviation(n + 1, n, s, p) == 0.0
  {
    hide Term;
    DeviationBelow(n + 1, n, s, p);
    AllOutcomes(n, p);
    AllOutcomes(n - 1, p);
    assert n - 1 + 1 == n;
    hide Below, Deviation;
  }

  // ---- More successes than the mean, when at most half are expected --------------------------------

  /** How much likelier `j` more than the mean is than `j` fewer. */
  ghost function Excess(n: nat, s: nat, p: real, j: nat): real {
    Term(n, s + j, p) - if j <= s then Term(n, s - j, p) else 0.0
  }

  /** From here on the terms above the mean fall more slowly than those below it. */
  ghost predicate Slower(s: nat, m: nat, j: nat) {
    j * (j + 1) * (m + s) >= m * s
  }

  lemma SlowerStays(s: nat, m: nat, j: nat, k: nat)
    requires j <= k && Slower(s, m, j)
    ensures Slower(s, m, k)
  {
    ProductsGrow(j, k, j + 1, k + 1);
    ProductsGrow(j * (j + 1), k * (k + 1), m + s, m + s);
  }

  lemma Consecutive(a: nat, j: nat)
    requires j <= a
    ensures (a - j) * (a + j + 1) == a * (a + 1) - j * (j + 1)
  {
  }

  /** The two products of neighbours, written with their common part. */
  lemma SlowerProducts(s: nat, m: nat, j: nat)
    requires s <= m && j < s
    ensures (m - j) * s * ((m + j + 1) * s) == (m * (m + 1) - j * (j + 1)) * (s * s)
    ensures (s + j + 1) * m * ((s - j) * m) == (s * (s + 1) - j * (j + 1)) * (m * m)
  {
    hide *;
    Consecutive(m, j);
    Consecutive(s, j);
    SquareOut(m - j, m + j + 1, s);
    SquareOut(s - j, s + j + 1, m);
    SwapFactors(s - j, s + j + 1, m);
  }

  lemma Sign(d: int, e: int, x: int, y: int)
    requires d >= 0 && x - y == d * e
    ensures e >= 0 ==> x >= y
    ensures e <= 0 ==> x <= y
  {
    if e <= 0 {
      assert d * -e >= 0;
    } else {
      assert d * e >= 0;
    }
  }

  lemma SlowerFactor(s: nat, m: nat, j: nat)
    requires s <= m && j < s
    ensures Slower(s, m, j) ==> (m - j) * s * ((m + j + 1) * s) >= (s + j + 1) * m * ((s - j) * m)
    ensures !Slower(s, m, j) ==> (m - j) * s * ((m + j + 1) * s) <= (s + j + 1) * m * ((s - j) * m)
  {
    var e, x, y := j * (j + 1) * (m + s) - m * s, (m - j) * s * ((m + j + 1) * s), (s + j + 1) * m * ((s - j) * m);
    assert Slower(s, m, j) <==> e >= 0;
    hide *;
    SlowerProducts(s, m, j);
    FactorDifference(s, m, j * (j + 1));
    Sign(m - s, e, x, y);
  }

  lemma FactorDifference(s: int, m: int, k: int)
    ensures (m * (m + 1) - k) * (s * s) - (s * (s + 1) - k) * (m * m) == (m - s) * (k * (m + s) - m * s)
  {
    var a, b := s * s, m * m;
    assert (m * (m + 1) - k) * a == b * a + m * a - k * a by {
      SumTimes(b, m, k, a);
      assert m * (m + 1) == b + m;
    }
    assert (s * (s + 1) - k) * b == a * b + s * b - k * b by {
      SumTimes(a, s, k, b);
      assert s * (s + 1) == a + s;
    }
    assert (m - s) * (k * (m + s) - m * s) == k * ((m - s) * (m + s)) - (m - s) * (m * s);
    assert (m - s) * (m + s) == b - a;
    assert k * (b - a) == k * b - k * a;
    assert (m - s) * (m * s) == s * b - m * a;
  }

  lemma SlowerCoefs(s: nat, m: nat, j: nat)
    requires s <= m && j < s
    ensures Slower(s, m, j) ==> Coef(m - j, s) * Coef(m + j + 1, s) >= Coef(s + j + 1, m) * Coef(s - j, m)
    ensures !Slower(s, m, j) ==> Coef(s - j, m) * Coef(s + j + 1, m) >= Coef(m + j + 1, s) * Coef(m - j, s)
  {
    hide Coef, Slower;
    SlowerFactor(s, m, j);
    CoefTimes(m - j, s, m + j + 1, s);
    CoefTimes(s + j + 1, m, s - j, m);
    CoefTimes(s - j, m, s + j + 1, m);
    CoefTimes(m + j + 1, s, m - j, s);
    SwapFactors(s - j, s + j + 1, m);
    SwapFactors(m - j, m + j + 1, s);
  }

  lemma ExcessSteps(n: nat, s: nat, p: real, j: nat)
    requires Mean(n, s, p) && s <= n - s && j < s
    ensures Slower(s, n - s, j) && Excess(n, s, p, j) >= 0.0 ==> Excess(n, s, p, j + 1) >= 0.0
    ensures !Slower(s, n - s, j) && Excess(n, s, p, j) <= 0.0 ==> Excess(n, s, p, j + 1) <= 0.0
  {
    hide Term, Coef, Slower;
    var m := n - s;
    NextMeanTerm(n, s, p, s + j);
    NextMeanTerm(n, s, p, s - j - 1);
    assert s - j - 1 + 1 == s - j && n - (s - j - 1) == m + j + 1 && n - (s + j) == m - j && s + j + 1 == s + (j + 1);
    TermNonNegative(n, s + j, p);
    TermNonNegative(n, s - j, p);
    SlowerCoefs(s, m, j);
    CoefSign(s + j + 1, m);
    CoefSign(m + j + 1, s);
    CoefSign(m - j, s);
    CoefSign(s - j, m);
    var x, u, y, v := Term(n, s + j + 1, p), Term(n, s + j, p), Term(n, s - j - 1, p), Term(n, s - j, p);
    assert Excess(n, s, p, j) == u - v && Excess(n, s, p, j + 1) == x - y;
    if Slower(s, m, j) && u >= v {
      Ratios(Coef(s + j + 1, m), x, Coef(m - j, s), u, Coef(s - j, m), y, Coef(m + j + 1, s), v);
    }
    if !Slower(s, m, j) && u <= v {
      Ratios(Coef(m + j + 1, s), y, Coef(s - j, m), v, Coef(m - j, s), x, Coef(s + j + 1, m), u);
    }
  }

  lemma {:induction false} ExcessBefore(n: nat, s: nat, p: real, j: nat)
    requires Mean(n, s, p) && s <= n - s && j <= s && (j > 0 ==> !Slower(s, n - s, j - 1))
    ensures Excess(n, s, p, j) <= 0.0
  {
    hide Term, Slower;
    if j > 0 {
      if j > 1 && Slower(s, n - s, j - 2) {
        SlowerStays(s, n - s, j - 2, j - 1);
      }
      ExcessBefore(n, s, p, j - 1);
      ExcessSteps(n, s, p, j - 1);
    }
  }

  /** Once above, always above. */
  lemma {:induction false} ExcessAfter(n: nat, s: nat, p: real, j: nat, k: nat)
    requires Mean(n, s, p) && s <= n - s && 0 < j <= k && Excess(n, s, p, j) > 0.0
    ensures Excess(n, s, p, k) >= 0.0
    decreases k
  {
    hide Term, Slower;
    TermNonNegative(n, s + k, p);
    if j < k <= s {
      ExcessAfter(n, s, p, j, k - 1);
      if !Slower(s, n - s, j - 1) {
        ExcessBefore(n, s, p, j);
      }
      SlowerStays(s, n - s, j - 1, k - 1);
      ExcessSteps(n, s, p, k - 1);
    }
  }

  /** Where the terms above the mean overtake those below. */
  lemma Overtakes(n: nat, s: nat, p: real) returns (turn: nat)
    requires Mean(n, s, p) && s <= n - s
    ensures turn > 0
    ensures forall j :: 1 <= j <= n - s ==> (j < turn ==> Excess(n, s, p, j) <= 0.0) && (j >= turn ==> Excess(n, s, p, j) >= 0.0)
  {
    hide Term, Excess;
    turn := 1;
    while turn <= n - s && Excess(n, s, p, turn) <= 0.0
      invariant 1 <= turn <= n - s + 1
      invariant forall j :: 1 <= j < turn ==> Excess(n, s, p, j) <= 0.0
    {
      turn := turn + 1;
    }
    forall j | turn <= j <= n - s ensures Excess(n, s, p, j) >= 0.0 {
      ExcessAfter(n, s, p, turn, j);
    }
  }

  ghost function Sum(n: nat, s: nat, p: real, k: nat): real {
    if k == 0 then 0.0 else Sum(n, s, p, k - 1) + Excess(n, s, p, k)
  }

  ghost function WeighedSum(n: nat, s: nat, p: real, k: nat): real {
    if k == 0 then 0.0 else WeighedSum(n, s, p, k - 1) + k as real * Excess(n, s, p, k)
  }

  lemma {:induction false} SumIsBelow(n: nat, s: nat, p: real, k: nat)
    ensures Sum(n, s, p, k) == Below(s + 1 + k, n, p) - Below(s + 1, n, p) - Below(s, n, p) + Below(if k <= s then s - k else 0, n, p)
  {
    hide Term;
    if k > 0 {
      SumIsBelow(n, s, p, k - 1);
      assert Below(s + 1 + k, n, p) == Below(s + k, n, p) + Term(n, s + k, p);
      if k <= s {
        assert Below(s - (k - 1), n, p) == Below(s - k, n, p) + Term(n, s - k, p);
      }
    }
  }

  lemma DeviationNext(k: nat, n: nat, s: nat, p: real)
    ensures Deviation(s + k + 1, n, s, p) == Deviation(s + k, n, s, p) + k as real * Term(n, s + k, p)
    ensures k <= s ==> Deviation(s - k + 1, n, s, p) == Deviation(s - k, n, s, p) - k as real * Term(n, s - k, p)
  {
    hide Term;
    assert (s + k) as real - s as real == k as real;
    if k <= s {
      assert (s - k) as real - s as real == -(k as real);
    }
  }

  /** One step of the weighed sum: the deviation below grows by `k * x` at one end and loses `k * y` at the other. */
  lemma WeighedStep(k: real, x: real, y: real, from: real, to: real, next: real, last: real)
    requires next == to + k * x && from == last - k * y
    ensures (to - from) + k * (x - y) == next - last
  {
    assert k * (x - y) == k * x - k * y;
  }

  lemma {:induction false} WeighedSumIsDeviation(n: nat, s: nat, p: real, k: nat)
    ensures WeighedSum(n, s, p, k) == Deviation(s + 1 + k, n, s, p) - Deviation(if k <= s then s - k else 0, n, s, p)
  {
    hide Term, Deviation;
    DeviationNext(k, n, s, p);
    if k == 0 {
      assert 0.0 * Term(n, s, p) == 0.0;
    } else {
      WeighedSumIsDeviation(n, s, p, k - 1);
      var below := if k <= s then Term(n, s - k, p) else 0.0;
      var first := Deviation(if k - 1 <= s then s - (k - 1) else 0, n, s, p);
      var last := Deviation(if k <= s then s - k else 0, n, s, p);
      assert first == last - k as real * below by {
        assert k <= s ==> s - (k - 1) == s - k + 1;
      }
      assert s + 1 + (k - 1) == s + k && s + 1 + k == s + k + 1;
      assert Excess(n, s, p, k) == Term(n, s + k, p) - below;
      WeighedStep(k as real, Term(n, s + k, p), below, first, Deviation(s + k, n, s, p), Deviation(s + k + 1, n, s, p), last);
    }
  }

  lemma {:induction false} WeighingTips(n: nat, s: nat, p: real, turn: nat, k: nat)
    requires forall j :: 1 <= j <= k ==> (j < turn ==> Excess(n, s, p, j) <= 0.0) && (j >= turn ==> Excess(n, s, p, j) >= 0.0)
    ensures WeighedSum(n, s, p, k) >= turn as real * Sum(n, s, p, k)
  {
    hide Excess;
    if k > 0 {
      WeighingTips(n, s, p, turn, k - 1);
      Tip(k, turn, Excess(n, s, p, k), WeighedSum(n, s, p, k - 1), Sum(n, s, p, k - 1));
    }
  }

  lemma Tip(k: nat, turn: nat, x: real, w: real, v: real)
    requires (k < turn ==> x <= 0.0) && (k >= turn ==> x >= 0.0) && w >= turn as real * v
    ensures w + k as real * x >= turn as real * (v + x)
  {
    assert (k as real - turn as real) * x >= 0.0;
    assert (k as real - turn as real) * x == k as real * x - turn as real * x;
    assert turn as real * (v + x) == turn as real * v + turn as real * x;
  }

  /** More successes than the mean have probability at most one half. */
  lemma MoreThanMean(n: nat, s: nat, p: real)
    requires Mean(n, s, p) && s <= n - s
    ensures 2.0 * Below(s + 1, n, p) >= 1.0
  {
    hide Term, Excess;
    var m := n - s;
    var turn := Overtakes(n, s, p);
    WeighingTips(n, s, p, turn, m);
    WeighedSumIsDeviation(n, s, p, m);
    NoDeviation(n, s, p);
    assert s + 1 + m == n + 1;
    assert Deviation(0, n, s, p) == 0.0 && Below(0, n, p) == 0.0;
    SumIsBelow(n, s, p, m);
    AllOutcomes(n, p);
    BelowGrows(s + 1, n, p);
    hide Below, Deviation, Sum, WeighedSum;
    assert turn as real * Sum(n, s, p, m) <= 0.0;
    if Sum(n, s, p, m) > 0.0 {
      Positive(turn as real, Sum(n, s, p, m));
    }
  }

  // ---- Trading successes for failures -------------------------------------------------------------------

  lemma {:induction false} ChooseAll(n: nat)
    ensures Choose(n, n) == 1
  {
    if n > 0 {
      ChooseAll(n - 1);
      ChooseTooMany(n - 1, n);
    }
  }

  lemma {:induction false} ChooseMirrors(n: nat, i: nat)
    requires i <= n
    ensures Choose(n, i) == Choose(n, n - i)
    decreases n
  {
    ChooseAll(n);
    if 0 < i < n {
      ChooseMirrors(n - 1, i - 1);
      ChooseMirrors(n - 1, i);
      assert n - 1 - (i - 1) == n - i;
    }
  }

  lemma TermMirrors(n: nat, i: nat, p: real)
    requires i <= n
    ensures Term(n, i, p) == Term(n, n - i, 1.0 - p)
  {
    ChooseMirrors(n, i);
    var q := 1.0 - p;
    assert 1.0 - q == p && n - (n - i) == i;
    var c, x, y := Choose(n, i) as real, Pow(p, i), Pow(q, n - i);
    assert Term(n, i, p) == c * x * y && Term(n, n - i, q) == c * y * x;
    assert c * x * y == c * y * x;
  }

  lemma {:induction false} BelowMirrors(k: nat, n: nat, p: real)
    requires k <= n + 1
    ensures Below(k, n, p) + Below(n + 1 - k, n, 1.0 - p) == 1.0
  {
    hide Term;
    if k == 0 {
      AllOutcomes(n, 1.0 - p);
    } else {
      BelowMirrors(k - 1, n, p);
      TermMirrors(n, k - 1, p);
      assert n + 1 - (k - 1) == (n + 1 - k) + 1 && n - (k - 1) == n + 1 - k;
      assert Below(n + 1 - k + 1, n, 1.0 - p) == Below(n + 1 - k, n, 1.0 - p) + Term(n, n + 1 - k, 1.0 - p);
    }
  }

  /** The mean is a median: neither fewer nor more successes are likelier than one half. */
  lemma MeanIsMedian(n: nat, s: nat, p: real)
    requires Mean(n, s, p)
    ensures 2.0 * Below(s, n, p) <= 1.0 && 2.0 * Below(s + 1, n, p) >= 1.0
  {
    if s <= n - s {
      FewerThanMean(n, s, p);
      MoreThanMean(n, s, p);
    } else {
      var t, q := n - s, 1.0 - p;
      Complement(p, n as real, s as real);
      assert Mean(n, t, q);
      FewerThanMean(n, t, q);
      MoreThanMean(n, t, q);
      BelowMirrors(s, n, p);
      BelowMirrors(s + 1, n, p);
      assert n + 1 - s == t + 1 && n + 1 - (s + 1) == t;
    }
  }
}
