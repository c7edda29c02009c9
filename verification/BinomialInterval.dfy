/** The exact binomial interval found by bisection, and the one-sided sign test, over the reals. */
module BinomialInterval {
  import opened Wrappers
  import opened Binomial
  import BinomialMedian

  datatype Bounds = Bounds(lower: real, upper: real)

  datatype IntervalError = InvalidBinomialIntervalInput

  const STEPS: nat := 80

  ghost predicate Legal(successes: int, trials: int, alpha: real) {
    0 <= successes <= trials && trials > 0 && 0.0 < alpha < 1.0
  }

  function Share(successes: nat, trials: nat): (r: real)
    requires successes <= trials && trials > 0
    ensures 0.0 <= r <= 1.0 && (successes < trials ==> r < 1.0)
  {
    var s, n := successes as real, trials as real;
    RatioTimes(s, n);
    RatioInUnit(s, n, s / n);
    s / n
  }

  lemma RatioTimes(s: real, n: real)
    requires n > 0.0
    ensures s / n * n == s
  {
  }

  lemma ProductSign(x: real, n: real)
    requires n > 0.0
    ensures x * n > 0.0 <==> x > 0.0
    ensures x * n >= 0.0 <==> x >= 0.0
  {
  }

  lemma RatioInUnit(s: real, n: real, r: real)
    requires n > 0.0 && 0.0 <= s <= n && r * n == s
    ensures 0.0 <= r <= 1.0 && (s < n ==> r < 1.0)
  {
    ProductSign(r, n);
    ProductSign(1.0 - r, n);
    assert (1.0 - r) * n == n - r * n;
  }

  /** What sends the search for the lower bound up: so many successes are too unlikely. */
  ghost predicate TooFew(s: nat, n: nat, alpha: real, p: real) {
    1.0 - Below(s, n, p) < alpha / 2.0
  }

  /** What sends the search for the upper bound up: so few successes are likely enough. */
  ghost predicate LikelyFew(s: nat, n: nat, alpha: real, p: real) {
    Below(s + 1, n, p) > alpha / 2.0
  }

  datatype Side = LowerSide | UpperSide

  ghost predicate GoesUp(side: Side, s: nat, n: nat, alpha: real, p: real) {
    if side.LowerSide? then TooFew(s, n, alpha, p) else LikelyFew(s, n, alpha, p)
  }

  /** Halved `k` times. */
  function Halved(w: real, k: nat): real {
    if k == 0 then w else Halved(w, k - 1) / 2.0
  }

  lemma {:induction false} HalvedIsPower(w: real, k: nat)
    ensures Halved(w, k) * Pow(2.0, k) == w
  {
    if k > 0 {
      HalvedIsPower(w, k - 1);
      var x, y := Halved(w, k - 1), Pow(2.0, k - 1);
      assert (x / 2.0) * (2.0 * y) == x * y;
    }
  }

  /** A bracket of the search started on [from, to]. */
  ghost predicate Bracket(side: Side, s: nat, n: nat, alpha: real, from: real, to: real, lo: real, hi: real) {
    && from <= lo <= hi <= to
    && (lo == from || GoesUp(side, s, n, alpha, lo))
    && (hi == to || !GoesUp(side, s, n, alpha, hi))
  }

  /** The last one: its width is that of the first divided by 2 to the 80. */
  ghost predicate LastBracket(side: Side, s: nat, n: nat, alpha: real, from: real, to: real, lo: real, hi: real) {
    Bracket(side, s, n, alpha, from, to, lo, hi) && (hi - lo) * 1208925819614629174706176.0 == to - from
  }

  lemma LastWidth(w: real)
    ensures Halved(w, STEPS) * 1208925819614629174706176.0 == w
  {
    hide Halved, Pow;
    HalvedIsPower(w, STEPS);
    PowSum(2.0, 5, 5);
    PowSum(2.0, 10, 10);
    PowSum(2.0, 20, 20);
    PowSum(2.0, 40, 40);
    assert Pow(2.0, 5) == 32.0 by {
      FifthPower();
    }
  }

  lemma FifthPower()
    ensures Pow(2.0, 5) == 32.0
  {
    assert Pow(2.0, 1) == 2.0 && Pow(2.0, 2) == 4.0 && Pow(2.0, 3) == 8.0 && Pow(2.0, 4) == 16.0;
  }

  /** The lower bound: the middle of some final bracket. */
  ghost predicate LowerBound(s: nat, n: nat, alpha: real, x: real)
    requires s <= n && n > 0
  {
    if s == 0 then x == 0.0
    else exists lo, hi :: LastBracket(LowerSide, s, n, alpha, 0.0, Share(s, n), lo, hi) && x == (lo + hi) / 2.0
  }

  ghost predicate UpperBound(s: nat, n: nat, alpha: real, x: real)
    requires s <= n && n > 0
  {
    if s == n then x == 1.0
    else exists lo, hi :: LastBracket(UpperSide, s, n, alpha, Share(s, n), 1.0, lo, hi) && x == (lo + hi) / 2.0
  }

  ghost predicate Interval(s: nat, n: nat, alpha: real, b: Bounds)
    requires s <= n && n > 0
  {
    LowerBound(s, n, alpha, b.lower) && UpperBound(s, n, alpha, b.upper)
  }

  method Search(side: Side, s: nat, n: nat, alpha: real, from: real, to: real) returns (middle: real)
    requires from <= to
    ensures exists lo, hi :: LastBracket(side, s, n, alpha, from, to, lo, hi) && middle == (lo + hi) / 2.0
  {
    var lo, hi := from, to;
    for k := 0 to STEPS
      invariant Bracket(side, s, n, alpha, from, to, lo, hi) && hi - lo == Halved(to - from, k)
    {
      var midpoint := (lo + hi) / 2.0;
      var up := if side.LowerSide? then 1.0 - Below(s, n, midpoint) < alpha / 2.0
                else Below(s + 1, n, midpoint) > alpha / 2.0;
      if up {
        lo := midpoint;
      } else {
        hi := midpoint;
      }
    }
    LastWidth(to - from);
    assert LastBracket(side, s, n, alpha, from, to, lo, hi);
    middle := (lo + hi) / 2.0;
  }

  method ClopperPearson(successes: int, trials: int, alpha: real) returns (r: Result<Bounds, IntervalError>)
    ensures r.Success? <==> Legal(successes, trials, alpha)
    ensures r.Success? ==> Interval(successes, trials, alpha, r.value)
  {
    if !(0 <= successes <= trials) || trials <= 0 || !(0.0 < alpha < 1.0) {
      return Failure(InvalidBinomialIntervalInput);
    }
    var lower, upper := 0.0, 1.0;
    if successes != 0 {
      lower := Search(LowerSide, successes, trials, alpha, 0.0, Share(successes, trials));
    }
    if successes != trials {
      upper := Search(UpperSide, successes, trials, alpha, Share(successes, trials), 1.0);
    }
    r := Success(Bounds(lower, upper));
  }

  // What the interval says.

  /** Once the search may go up at `q`, it may go up at everything below. */
  lemma GoesUpIsDownward(side: Side, s: nat, n: nat, alpha: real, p: real, q: real)
    requires Probability(p) && Probability(q) && p <= q && GoesUp(side, s, n, alpha, q)
    ensures GoesUp(side, s, n, alpha, p)
  {
    BelowIsAntitone(s, n, p, q);
    BelowIsAntitone(s + 1, n, p, q);
  }

  lemma LowerEdge(s: nat, n: nat, alpha: real, p: real)
    requires 0 < s <= n && Legal(s, n, alpha) && p == 0.0
    ensures TooFew(s, n, alpha, p)
  {
    BelowAtZero(s, n);
  }

  lemma UpperEdge(s: nat, n: nat, alpha: real, p: real)
    requires s < n && Legal(s, n, alpha) && p == 1.0
    ensures !LikelyFew(s, n, alpha, p)
  {
    BelowAtOne(s + 1, n);
  }

  /** The observed share is on the far side of both searches. */
  lemma ShareIsBetween(s: nat, n: nat, alpha: real)
    requires Legal(s, n, alpha)
    ensures !TooFew(s, n, alpha, Share(s, n)) && LikelyFew(s, n, alpha, Share(s, n))
  {
    hide Term;
    ShareOf(s, n);
    var p := Share(s, n);
    if s == 0 {
      ProductSign(p, n as real);
      BelowAtZero(1, n);
    } else if s == n {
      ShareOfAll(n, p);
      BelowAtOne(n, n);
      AllOutcomes(n, 1.0);
    } else {
      BinomialMedian.MeanIsMedian(n, s, p);
    }
  }

  lemma ShareOfAll(n: nat, p: real)
    requires n > 0 && p * n as real == n as real
    ensures p == 1.0
  {
  }

  lemma ShareOf(s: nat, n: nat)
    requires s <= n && n > 0
    ensures Share(s, n) * n as real == s as real
  {
    RatioTimes(s as real, n as real);
  }

  /** The rounding left by the bisection: half the width of its last bracket, 2 to the 81 of the first. */
  ghost function Slack(w: real): real {
    w / 2417851639229258349412352.0
  }

  lemma SlackIsMonotone(v: real, w: real)
    requires 0.0 <= v <= w
    ensures 0.0 <= Slack(v) <= Slack(w)
  {
  }

  /** The last bracket of a search has an answer of either kind at its ends. */
  lemma LowerBracket(s: nat, n: nat, alpha: real, x: real) returns (lo: real, hi: real)
    requires 0 < s <= n && Legal(s, n, alpha) && LowerBound(s, n, alpha, x)
    ensures 0.0 <= lo <= x <= hi <= Share(s, n)
    ensures x - lo == Slack(Share(s, n)) == hi - x
    ensures TooFew(s, n, alpha, lo) && !TooFew(s, n, alpha, hi)
  {
    lo, hi :| LastBracket(LowerSide, s, n, alpha, 0.0, Share(s, n), lo, hi) && x == (lo + hi) / 2.0;
    hide Share, TooFew;
    assert GoesUp(LowerSide, s, n, alpha, lo) by {
      LowerEdge(s, n, alpha, 0.0);
    }
    ShareIsBetween(s, n, alpha);
  }

  lemma UpperBracket(s: nat, n: nat, alpha: real, x: real) returns (lo: real, hi: real)
    requires s < n && Legal(s, n, alpha) && UpperBound(s, n, alpha, x)
    ensures Share(s, n) <= lo <= x <= hi <= 1.0
    ensures x - lo == Slack(1.0 - Share(s, n)) == hi - x
    ensures LikelyFew(s, n, alpha, lo) && !LikelyFew(s, n, alpha, hi)
  {
    lo, hi :| LastBracket(UpperSide, s, n, alpha, Share(s, n), 1.0, lo, hi) && x == (lo + hi) / 2.0;
    hide Share, LikelyFew;
    assert !GoesUp(UpperSide, s, n, alpha, hi) by {
      UpperEdge(s, n, alpha, 1.0);
    }
    ShareIsBetween(s, n, alpha);
  }

  /**
   * The lower bound separates the probabilities under which so many successes
   * are too unlikely from all others, up to half the width of the last bracket.
   */
  lemma LowerBoundSeparates(s: nat, n: nat, alpha: real, x: real, p: real)
    requires 0 < s <= n && Legal(s, n, alpha) && LowerBound(s, n, alpha, x) && Probability(p)
    ensures 0.0 <= x <= Share(s, n)
    ensures p <= x - Slack(Share(s, n)) ==> 1.0 - Below(s, n, p) < alpha / 2.0
    ensures p >= x + Slack(Share(s, n)) ==> 1.0 - Below(s, n, p) >= alpha / 2.0
  {
    var lo, hi := LowerBracket(s, n, alpha, x);
    assert forall q :: TooFew(s, n, alpha, q) <==> 1.0 - Below(s, n, q) < alpha / 2.0;
    hide TooFew;
    if p <= lo {
      GoesUpIsDownward(LowerSide, s, n, alpha, p, lo);
    }
    if hi <= p && TooFew(s, n, alpha, p) {
      GoesUpIsDownward(LowerSide, s, n, alpha, hi, p);
    }
  }

  lemma UpperBoundSeparates(s: nat, n: nat, alpha: real, x: real, p: real)
    requires s < n && Legal(s, n, alpha) && UpperBound(s, n, alpha, x) && Probability(p)
    ensures Share(s, n) <= x <= 1.0
    ensures p >= x + Slack(1.0 - Share(s, n)) ==> Below(s + 1, n, p) <= alpha / 2.0
    ensures p <= x - Slack(1.0 - Share(s, n)) ==> Below(s + 1, n, p) > alpha / 2.0
  {
    var lo, hi := UpperBracket(s, n, alpha, x);
    assert forall q :: LikelyFew(s, n, alpha, q) <==> Below(s + 1, n, q) > alpha / 2.0;
    hide LikelyFew;
    if p <= lo {
      GoesUpIsDownward(UpperSide, s, n, alpha, p, lo);
    }
    if hi <= p && LikelyFew(s, n, alpha, p) {
      GoesUpIsDownward(UpperSide, s, n, alpha, hi, p);
    }
  }

  /** The probability, of all between none and one, at which fewer than `k` successes become as unlikely as `level`. */
  ghost predicate Crossing(k: nat, n: nat, level: real, c: real) {
    && Probability(c)
    && (forall p :: 0.0 <= p < c ==> Below(k, n, p) > level)
    && (forall p :: c < p <= 1.0 ==> Below(k, n, p) <= level)
  }

  /** The search starts around the crossing and finds it up to s / n divided by 2 to the 81. */
  lemma LowerCrossingIsFound(s: nat, n: nat, alpha: real, x: real, c: real)
    requires 0 < s <= n && Legal(s, n, alpha) && LowerBound(s, n, alpha, x)
    requires Crossing(s, n, 1.0 - alpha / 2.0, c)
    ensures -Share(s, n) <= (x - c) * 2417851639229258349412352.0 <= Share(s, n)
  {
    hide Share;
    var lo, hi := LowerBracket(s, n, alpha, x);
    assert lo <= c <= hi;
    Within(x, c, Slack(Share(s, n)));
  }

  lemma UpperCrossingIsFound(s: nat, n: nat, alpha: real, x: real, c: real)
    requires s < n && Legal(s, n, alpha) && UpperBound(s, n, alpha, x)
    requires Crossing(s + 1, n, alpha / 2.0, c)
    ensures -(1.0 - Share(s, n)) <= (x - c) * 2417851639229258349412352.0 <= 1.0 - Share(s, n)
  {
    hide Share;
    var lo, hi := UpperBracket(s, n, alpha, x);
    assert lo <= c <= hi;
    Within(x, c, Slack(1.0 - Share(s, n)));
  }

  lemma Within(x: real, c: real, d: real)
    requires -d <= x - c <= d
    ensures -d * 2417851639229258349412352.0 <= (x - c) * 2417851639229258349412352.0 <= d * 2417851639229258349412352.0
  {
  }

  /** The interval holds the observed share. */
  lemma IntervalHoldsShare(s: nat, n: nat, alpha: real, b: Bounds)
    requires Legal(s, n, alpha) && Interval(s, n, alpha, b)
    ensures 0.0 <= b.lower <= Share(s, n) <= b.upper <= 1.0
  {
    if s == n {
      assert s as real / n as real == 1.0;
    }
    hide Slack, Below, Share, LowerBound, UpperBound;
    if s > 0 {
      LowerBoundSeparates(s, n, alpha, b.lower, 0.0);
    }
    if s < n {
      UpperBoundSeparates(s, n, alpha, b.upper, 0.0);
    }
  }

  // Coverage: whatever the true probability, the interval misses it with probability under alpha.

  /** The probability that the number of successes is under `k` and in `outcomes`. */
  ghost function Weight(n: nat, p: real, outcomes: set<nat>, k: nat): real {
    if k == 0 then 0.0 else Weight(n, p, outcomes, k - 1) + if k - 1 in outcomes then Term(n, k - 1, p) else 0.0
  }

  lemma {:induction false} WeightFrom(n: nat, p: real, outcomes: set<nat>, first: nat, k: nat)
    requires Probability(p) && forall s :: s in outcomes ==> first <= s
    ensures Weight(n, p, outcomes, k) <= if k <= first then 0.0 else Below(k, n, p) - Below(first, n, p)
  {
    if k > 0 {
      WeightFrom(n, p, outcomes, first, k - 1);
      TermNonNegative(n, k - 1, p);
    }
  }

  lemma {:induction false} WeightUpTo(n: nat, p: real, outcomes: set<nat>, last: nat, k: nat)
    requires Probability(p) && forall s :: s in outcomes ==> s <= last
    ensures Weight(n, p, outcomes, k) <= Below(if k <= last then k else last + 1, n, p)
  {
    if k > 0 {
      WeightUpTo(n, p, outcomes, last, k - 1);
      TermNonNegative(n, k - 1, p);
    }
  }

  lemma {:induction false} WeightOfUnion(n: nat, p: real, a: set<nat>, b: set<nat>, c: set<nat>, k: nat)
    requires Probability(p) && forall s: nat :: s < k ==> s in a || s in b || s in c
    ensures Below(k, n, p) <= Weight(n, p, a, k) + Weight(n, p, b, k) + Weight(n, p, c, k)
  {
    if k > 0 {
      WeightOfUnion(n, p, a, b, c, k - 1);
      TermNonNegative(n, k - 1, p);
    }
  }

  lemma {:induction false} Least(outcomes: set<nat>) returns (m: nat)
    requires outcomes != {}
    ensures m in outcomes && forall s :: s in outcomes ==> m <= s
  {
    var any :| any in outcomes;
    var rest := outcomes - {any};
    m := any;
    if rest != {} {
      var other := Least(rest);
      m := if other < any then other else any;
    }
    assert forall s :: s in outcomes ==> s == any || s in rest;
  }

  lemma {:induction false} Greatest(outcomes: set<nat>) returns (m: nat)
    requires outcomes != {}
    ensures m in outcomes && forall s :: s in outcomes ==> s <= m
  {
    var any :| any in outcomes;
    var rest := outcomes - {any};
    m := any;
    if rest != {} {
      var other := Greatest(rest);
      m := if other > any then other else any;
    }
    assert forall s :: s in outcomes ==> s == any || s in rest;
  }

  lemma TooFewWeighLittle(n: nat, alpha: real, p: real, outcomes: set<nat>)
    requires Probability(p) && 0.0 < alpha
    requires forall s :: s in outcomes ==> s <= n && TooFew(s, n, alpha, p)
    ensures Weight(n, p, outcomes, n + 1) < alpha / 2.0
  {
    if outcomes == {} {
      WeightFrom(n, p, outcomes, n + 1, n + 1);
    } else {
      var first := Least(outcomes);
      WeightFrom(n, p, outcomes, first, n + 1);
      AllOutcomes(n, p);
    }
  }

  lemma UnlikelyWeighLittle(n: nat, alpha: real, p: real, outcomes: set<nat>)
    requires Probability(p) && 0.0 < alpha
    requires forall s :: s in outcomes ==> s <= n && !LikelyFew(s, n, alpha, p)
    ensures Weight(n, p, outcomes, n + 1) <= alpha / 2.0
  {
    if outcomes == {} {
      WeightFrom(n, p, outcomes, n + 1, n + 1);
    } else {
      var last := Greatest(outcomes);
      WeightUpTo(n, p, outcomes, last, n + 1);
    }
  }

  ghost predicate Holds(b: Bounds, p: real) {
    b.lower - Slack(1.0) <= p <= b.upper + Slack(1.0)
  }

  lemma MissedBelow(s: nat, n: nat, alpha: real, b: Bounds, p: real)
    requires Legal(s, n, alpha) && Interval(s, n, alpha, b) && Probability(p)
    requires p < b.lower - Slack(1.0)
    ensures TooFew(s, n, alpha, p)
  {
    SlackIsMonotone(0.0, 1.0);
    SlackIsMonotone(Share(s, n), 1.0);
    if s > 0 {
      LowerBoundSeparates(s, n, alpha, b.lower, p);
    }
  }

  lemma MissedAbove(s: nat, n: nat, alpha: real, b: Bounds, p: real)
    requires Legal(s, n, alpha) && Interval(s, n, alpha, b) && Probability(p)
    requires p > b.upper + Slack(1.0)
    ensures !LikelyFew(s, n, alpha, p)
  {
    SlackIsMonotone(0.0, 1.0);
    SlackIsMonotone(1.0 - Share(s, n), 1.0);
    if s < n {
      UpperBoundSeparates(s, n, alpha, b.upper, p);
    }
  }

  /**
   * Whatever the true probability `p`, the outcomes whose interval holds `p`,
   * up to the rounding of the bisection, have probability over 1 - alpha.
   */
  lemma IntervalsCover(n: nat, alpha: real, bounds: seq<Bounds>, p: real)
    requires n > 0 && 0.0 < alpha < 1.0 && |bounds| == n + 1 && Probability(p)
    requires forall s :: 0 <= s <= n ==> Interval(s, n, alpha, bounds[s])
    ensures Weight(n, p, (set s: nat | s <= n && Holds(bounds[s], p)), n + 1) > 1.0 - alpha
  {
    hide Slack, Below, Weight;
    var held := set s: nat | s <= n && Holds(bounds[s], p);
    var under := set s: nat | s <= n && p < bounds[s].lower - Slack(1.0);
    var over := set s: nat | s <= n && p > bounds[s].upper + Slack(1.0);
    forall s | s in under ensures TooFew(s, n, alpha, p) {
      MissedBelow(s, n, alpha, bounds[s], p);
    }
    forall s | s in over ensures !LikelyFew(s, n, alpha, p) {
      MissedAbove(s, n, alpha, bounds[s], p);
    }
    TooFewWeighLittle(n, alpha, p, under);
    UnlikelyWeighLittle(n, alpha, p, over);
    forall s: nat | s < n + 1 ensures s in held || s in under || s in over {
      assert s <= n;
      assert Holds(bounds[s], p) || p < bounds[s].lower - Slack(1.0) || p > bounds[s].upper + Slack(1.0);
    }
    WeightOfUnion(n, p, held, under, over, n + 1);
    AllOutcomes(n, p);
  }

  // The sign test.

  function ChoicesFrom(wins: nat, trials: nat): nat
    decreases trials + 1 - wins
  {
    if wins > trials then 0 else Choose(trials, wins) + ChoicesFrom(wins + 1, trials)
  }

  function OneSidedSignP(wins: int, losses: int): real {
    var trials := wins + losses;
    if trials <= 0 || !(0 <= wins <= trials) then 1.0
    else PowPositive(2.0, trials); ChoicesFrom(wins, trials) as real / Pow(2.0, trials)
  }

  lemma {:induction false} PowPositive(x: real, n: nat)
    requires x > 0.0
    ensures Pow(x, n) > 0.0
  {
    if n > 0 {
      PowPositive(x, n - 1);
    }
  }

  lemma {:induction false} PowSum(x: real, m: nat, n: nat)
    ensures Pow(x, m) * Pow(x, n) == Pow(x, m + n)
  {
    if m > 0 {
      PowSum(x, m - 1, n);
      assert Pow(x, m) == x * Pow(x, m - 1);
      var a, b := Pow(x, m - 1), Pow(x, n);
      assert x * a * b == x * (a * b);
      assert m - 1 + n == m + n - 1;
    }
  }

  lemma {:induction false} HalfPower(n: nat)
    ensures Pow(0.5, n) * Pow(2.0, n) == 1.0
  {
    if n > 0 {
      HalfPower(n - 1);
      var a, b := Pow(0.5, n - 1), Pow(2.0, n - 1);
      assert 0.5 * a * (2.0 * b) == a * b;
    }
  }

  lemma HalfTerm(n: nat, i: nat)
    requires i <= n
    ensures Term(n, i, 0.5) == Choose(n, i) as real * Pow(0.5, n)
  {
    PowSum(0.5, i, n - i);
    var c, x, y := Choose(n, i) as real, Pow(0.5, i), Pow(0.5, n - i);
    assert c * x * y == c * (x * y);
  }

  lemma TailStep(c: real, d: real, h: real)
    ensures (c + d) * h == c * h + d * h
  {
  }

  lemma {:induction false} ChoicesAreTail(wins: nat, trials: nat)
    requires wins <= trials + 1
    ensures ChoicesFrom(wins, trials) as real * Pow(0.5, trials) == 1.0 - Below(wins, trials, 0.5)
    decreases trials + 1 - wins
  {
    hide Term, Pow, Choose;
    if wins == trials + 1 {
      AllOutcomes(trials, 0.5);
    } else {
      ChoicesAreTail(wins + 1, trials);
      HalfTerm(trials, wins);
      assert Below(wins + 1, trials, 0.5) == Below(wins, trials, 0.5) + Term(trials, wins, 0.5);
      assert ChoicesFrom(wins, trials) as real == Choose(trials, wins) as real + ChoicesFrom(wins + 1, trials) as real;
      hide Below, ChoicesFrom;
      TailStep(Choose(trials, wins) as real, ChoicesFrom(wins + 1, trials) as real, Pow(0.5, trials));
    }
  }

  lemma DivideAsMultiply(c: real, h: real, t: real)
    requires h * t == 1.0 && t > 0.0
    ensures c / t == c * h
  {
    assert c * h * t == c * (h * t);
  }

  /** The sign test is the probability of at least `wins` wins in fair trials. */
  lemma SignTestIsTail(wins: nat, losses: nat)
    ensures OneSidedSignP(wins, losses) == 1.0 - Below(wins, wins + losses, 0.5)
  {
    var n := wins + losses;
    ChoicesAreTail(wins, n);
    HalfPower(n);
    PowPositive(2.0, n);
    if n > 0 {
      DivideAsMultiply(ChoicesFrom(wins, n) as real, Pow(0.5, n), Pow(2.0, n));
    }
  }

  /** The sign test rejects at alpha / 2 when the interval lies above one half, and only then. */
  lemma SignTestMeetsInterval(wins: nat, losses: nat, alpha: real, b: Bounds)
    requires wins + losses > 0 && 0.0 < alpha < 1.0 && Interval(wins, wins + losses, alpha, b)
    ensures 0.5 <= b.lower - Slack(Share(wins, wins + losses)) ==> OneSidedSignP(wins, losses) < alpha / 2.0
    ensures OneSidedSignP(wins, losses) < alpha / 2.0 ==> 0.5 < b.lower + Slack(Share(wins, wins + losses))
  {
    var n := wins + losses;
    if wins == 0 {
      SlackIsMonotone(0.0, Share(0, n));
      assert OneSidedSignP(0, losses) == 1.0 by {
        SignTestIsTail(0, losses);
        assert Below(0, n, 0.5) == 0.0;
      }
    } else {
      hide Below, Slack, Share, OneSidedSignP, LowerBound, UpperBound;
      SignTestIsTail(wins, losses);
      LowerBoundSeparates(wins, n, alpha, b.lower, 0.5);
    }
  }
}
