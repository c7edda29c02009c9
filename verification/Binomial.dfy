/** The binomial distribution over the reals: the tail is monotone in the probability. */
module Binomial {

  function Choose(n: nat, k: nat): nat {
    if k == 0 then 1 else if n == 0 then 0 else Choose(n - 1, k - 1) + Choose(n - 1, k)
  }

  function Pow(x: real, n: nat): real {
    if n == 0 then 1.0 else x * Pow(x, n - 1)
  }

  /** The probability of exactly `i` successes in `n` trials. */
  function Term(n: nat, i: nat, p: real): real {
    if i <= n then Choose(n, i) as real * Pow(p, i) * Pow(1.0 - p, n - i) else 0.0
  }

  /** The probability of fewer than `k` successes: `_binomial_cdf(k - 1, n, p)`. */
  function Below(k: nat, n: nat, p: real): real {
    if k == 0 then 0.0 else Below(k - 1, n, p) + Term(n, k - 1, p)
  }

  ghost predicate Probability(p: real) {
    0.0 <= p <= 1.0
  }

  lemma {:induction false} ChooseTooMany(n: nat, k: nat)
    requires k > n
    ensures Choose(n, k) == 0
  {
    if n > 0 {
      ChooseTooMany(n - 1, k - 1);
      ChooseTooMany(n - 1, k);
    }
  }

  lemma {:induction false} PowNonNegative(x: real, n: nat)
    requires x >= 0.0
    ensures Pow(x, n) >= 0.0
  {
    if n > 0 {
      PowNonNegative(x, n - 1);
    }
  }

  lemma TermNonNegative(n: nat, i: nat, p: real)
    requires Probability(p)
    ensures Term(n, i, p) >= 0.0
  {
    if i <= n {
      PowNonNegative(p, i);
      PowNonNegative(1.0 - p, n - i);
      var c, x, y := Choose(n, i) as real, Pow(p, i), Pow(1.0 - p, n - i);
      assert c * x >= 0.0;
      assert c * x * y >= 0.0;
    }
  }

  lemma Product4(a: real, b: real, c: real, d: real)
    ensures a * (b * c * d) == b * (a * c) * d
    ensures a * (b * c * d) == b * c * (a * d)
  {
  }

  lemma Distribute(a: real, b: real, x: real, y: real)
    ensures (a + b) * x * y == a * x * y + b * x * y
  {
    assert (a + b) * x == a * x + b * x;
  }

  lemma TermPascalFirst(n: nat, p: real)
    ensures Term(n + 1, 0, p) == (1.0 - p) * Term(n, 0, p)
  {
    assert Pow(1.0 - p, n + 1) == (1.0 - p) * Pow(1.0 - p, n);
    assert Term(n, 0, p) == Pow(1.0 - p, n);
  }

  lemma TermFails(n: nat, i: nat, p: real)
    requires i <= n
    ensures (1.0 - p) * Term(n, i, p) == Choose(n, i) as real * Pow(p, i) * Pow(1.0 - p, n + 1 - i)
  {
    var q := 1.0 - p;
    var b, x, y := Choose(n, i) as real, Pow(p, i), Pow(q, n - i);
    assert Term(n, i, p) == b * x * y;
    assert Pow(q, n + 1 - i) == q * y;
    Product4(q, b, x, y);
  }

  lemma TermSucceeds(n: nat, i: nat, p: real)
    requires 0 < i <= n + 1
    ensures p * Term(n, i - 1, p) == Choose(n, i - 1) as real * Pow(p, i) * Pow(1.0 - p, n + 1 - i)
  {
    var b, x, y := Choose(n, i - 1) as real, Pow(p, i - 1), Pow(1.0 - p, n + 1 - i);
    assert Term(n, i - 1, p) == b * x * y;
    assert Pow(p, i) == p * x;
    Product4(p, b, x, y);
  }

  lemma ExtendChoice(n: nat, i: nat, x: real, y: real)
    requires 0 < i
    ensures Choose(n + 1, i) as real * x * y == Choose(n, i - 1) as real * x * y + Choose(n, i) as real * x * y
  {
    assert Choose(n + 1, i) == Choose(n, i - 1) + Choose(n, i);
    hide Choose;
    Distribute(Choose(n, i - 1) as real, Choose(n, i) as real, x, y);
  }

  lemma TermPascalInside(n: nat, i: nat, p: real)
    requires 0 < i <= n
    ensures Term(n + 1, i, p) == (1.0 - p) * Term(n, i, p) + p * Term(n, i - 1, p)
  {
    hide Choose, Pow;
    TermFails(n, i, p);
    TermSucceeds(n, i, p);
    assert Term(n + 1, i, p) == Choose(n + 1, i) as real * Pow(p, i) * Pow(1.0 - p, n + 1 - i);
    hide Term;
    ExtendChoice(n, i, Pow(p, i), Pow(1.0 - p, n + 1 - i));
  }

  lemma TermPascalLast(n: nat, p: real)
    ensures Term(n + 1, n + 1, p) == (1.0 - p) * Term(n, n + 1, p) + p * Term(n, n, p)
  {
    assert Choose(n + 1, n + 1) == Choose(n, n) by {
      ChooseTooMany(n, n + 1);
    }
    hide Choose, Pow;
    TermSucceeds(n, n + 1, p);
    assert Term(n + 1, n + 1, p) == Choose(n + 1, n + 1) as real * Pow(p, n + 1) * Pow(1.0 - p, n + 1 - (n + 1));
    assert Term(n, n + 1, p) == 0.0;
    hide Term;
  }

  /** Pascal's rule for the terms. */
  lemma TermPascal(n: nat, i: nat, p: real)
    requires i > 0
    ensures Term(n + 1, i, p) == (1.0 - p) * Term(n, i, p) + p * Term(n, i - 1, p)
  {
    hide Choose, Pow;
    if i <= n {
      TermPascalInside(n, i, p);
    } else if i == n + 1 {
      TermPascalLast(n, p);
    }
  }

  lemma Combine(p: real, a: real, b: real, s: real, t: real)
    ensures ((1.0 - p) * a + p * b) + ((1.0 - p) * s + p * t) == (1.0 - p) * (a + s) + p * (b + t)
  {
    assert (1.0 - p) * (a + s) == (1.0 - p) * a + (1.0 - p) * s;
    assert p * (b + t) == p * b + p * t;
  }

  /** Pascal's rule for the distribution: condition on one trial. */
  lemma {:induction false} BelowPascal(k: nat, n: nat, p: real)
    requires k > 0
    ensures Below(k, n + 1, p) == (1.0 - p) * Below(k, n, p) + p * Below(k - 1, n, p)
    decreases k
  {
    hide Term;
    if k == 1 {
      TermPascalFirst(n, p);
      assert Below(1, n, p) == Term(n, 0, p);
      assert Below(1, n + 1, p) == Term(n + 1, 0, p);
    } else {
      BelowPascal(k - 1, n, p);
      TermPascal(n, k - 1, p);
      assert Below(k - 1, n, p) == Below(k - 2, n, p) + Term(n, k - 2, p);
      assert Below(k, n, p) == Below(k - 1, n, p) + Term(n, k - 1, p);
      assert Below(k, n + 1, p) == Below(k - 1, n + 1, p) + Term(n + 1, k - 1, p);
      hide Below;
      Combine(p, Below(k - 1, n, p), Below(k - 2, n, p), Term(n, k - 1, p), Term(n, k - 2, p));
    }
  }

  lemma {:induction false} BelowNoTrials(k: nat, p: real)
    ensures Below(k, 0, p) == if k == 0 then 0.0 else 1.0
  {
    if k > 0 {
      BelowNoTrials(k - 1, p);
    }
  }

  lemma NonNegative(x: real, y: real)
    requires x >= 0.0 && y >= 0.0
    ensures x * y >= 0.0
  {
  }

  lemma Mix(p: real, q: real, a: real, b: real, c: real, d: real)
    requires Probability(p) && Probability(q) && p <= q
    requires a >= b && c >= d && b >= d
    ensures (1.0 - q) * b + q * d <= (1.0 - p) * a + p * c
  {
    NonNegative(1.0 - p, a - b);
    NonNegative(p, c - d);
    NonNegative(q - p, b - d);
    assert (1.0 - p) * (a - b) == a - b - p * a + p * b;
    assert p * (c - d) == p * c - p * d;
    assert (q - p) * (b - d) == q * b - q * d - p * b + p * d;
    assert (1.0 - p) * a == a - p * a;
    assert (1.0 - q) * b == b - q * b;
  }

  lemma BelowGrows(k: nat, n: nat, p: real)
    requires Probability(p) && k > 0
    ensures Below(k - 1, n, p) <= Below(k, n, p)
  {
    TermNonNegative(n, k - 1, p);
  }

  lemma AntitoneStep(k: nat, n: nat, p: real, q: real)
    requires Probability(p) && Probability(q) && p <= q && k > 0
    requires Below(k, n, q) <= Below(k, n, p) && Below(k - 1, n, q) <= Below(k - 1, n, p)
    ensures Below(k, n + 1, q) <= Below(k, n + 1, p)
  {
    hide Below;
    BelowPascal(k, n, p);
    BelowPascal(k, n, q);
    BelowGrows(k, n, q);
    Mix(p, q, Below(k, n, p), Below(k, n, q), Below(k - 1, n, p), Below(k - 1, n, q));
  }

  /** A larger probability of success makes few successes less likely. */
  lemma {:induction false} BelowIsAntitone(k: nat, n: nat, p: real, q: real)
    requires Probability(p) && Probability(q) && p <= q
    ensures Below(k, n, q) <= Below(k, n, p)
    decreases n
  {
    if n == 0 {
      BelowNoTrials(k, p);
      BelowNoTrials(k, q);
    } else if k > 0 {
      BelowIsAntitone(k, n - 1, p, q);
      BelowIsAntitone(k - 1, n - 1, p, q);
      AntitoneStep(k, n - 1, p, q);
    }
  }

  lemma BelowBeyond(n: nat, p: real)
    ensures Below(n + 2, n, p) == Below(n + 1, n, p)
  {
    assert Term(n, n + 1, p) == 0.0;
    hide Term;
    assert Below(n + 2, n, p) == Below(n + 1, n, p) + Term(n, n + 1, p);
  }

  /** All outcomes together are certain. */
  lemma {:induction false} AllOutcomes(n: nat, p: real)
    ensures Below(n + 1, n, p) == 1.0
    decreases n
  {
    hide Below;
    if n == 0 {
      BelowNoTrials(1, p);
    } else {
      AllOutcomes(n - 1, p);
      BelowBeyond(n - 1, p);
      BelowPascal(n + 1, n - 1, p);
    }
  }

  lemma {:induction false} PowOfZero(n: nat)
    ensures Pow(0.0, n) == if n == 0 then 1.0 else 0.0
  {
  }

  lemma {:induction false} PowOfOne(n: nat)
    ensures Pow(1.0, n) == 1.0
  {
    if n > 0 {
      PowOfOne(n - 1);
    }
  }

  /** With success impossible, fewer than `k` successes are certain. */
  lemma {:induction false} BelowAtZero(k: nat, n: nat)
    requires k > 0
    ensures Below(k, n, 0.0) == 1.0
    decreases k
  {
    if k == 1 {
      PowOfOne(n);
      assert Term(n, 0, 0.0) == 1.0;
    } else {
      BelowAtZero(k - 1, n);
      PowOfZero(k - 1);
      assert Term(n, k - 1, 0.0) == 0.0;
    }
  }

  /** With success certain, fewer than `n` successes are impossible. */
  lemma {:induction false} BelowAtOne(k: nat, n: nat)
    requires k <= n
    ensures Below(k, n, 1.0) == 0.0
    decreases k
  {
    if k > 0 {
      BelowAtOne(k - 1, n);
      PowOfZero(n - (k - 1));
      assert Pow(1.0 - 1.0, n - (k - 1)) == 0.0;
      assert Term(n, k - 1, 1.0) == Choose(n, k - 1) as real * Pow(1.0, k - 1) * 0.0;
    }
  }
}
