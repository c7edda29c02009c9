/** Giving components, largest first, to the least loaded role: how balanced the roles get. */
module Balance {

  /** The first of the least loaded roles. */
  function LeastLoaded(loads: seq<nat>): (r: nat)
    requires |loads| > 0
    ensures r < |loads| && forall i | 0 <= i < |loads| :: loads[r] <= loads[i] && (i < r ==> loads[r] < loads[i])
  {
    var k := |loads| - 1;
    if k == 0 then 0
    else
      var r := LeastLoaded(loads[..k]);
      assert forall i | 0 <= i < k :: loads[..k][i] == loads[i];
      if loads[k] < loads[r] then k else r
  }

  /** The roles the greedy rule picks for components of these sizes. */
  function Greedy(sizes: seq<nat>, m: nat): (a: seq<nat>)
    requires m > 0
    ensures |a| == |sizes| && forall i | 0 <= i < |a| :: a[i] < m
  {
    if sizes == [] then []
    else
      var a := Greedy(sizes[..|sizes| - 1], m);
      a + [LeastLoaded(Loads(sizes[..|sizes| - 1], a, m))]
  }

  /** The load of role `r` under an assignment. */
  function Load(sizes: seq<nat>, a: seq<nat>, r: nat): nat
    requires |a| == |sizes|
  {
    if sizes == [] then 0
    else
      var k := |sizes| - 1;
      Load(sizes[..k], a[..k], r) + if a[k] == r then sizes[k] else 0
  }

  function Loads(sizes: seq<nat>, a: seq<nat>, m: nat): (l: seq<nat>)
    requires |a| == |sizes|
    ensures |l| == m && forall r | 0 <= r < m :: l[r] == Load(sizes, a, r)
  {
    seq(m, (r: nat) => Load(sizes, a, r))
  }

  ghost predicate Assigns(a: seq<nat>, n: nat, m: nat) {
    |a| == n && forall i | 0 <= i < n :: a[i] < m
  }

  ghost predicate NonIncreasing(sizes: seq<nat>) {
    forall i, j | 0 <= i <= j < |sizes| :: sizes[i] >= sizes[j]
  }

  ghost predicate Positive(sizes: seq<nat>) {
    forall i | 0 <= i < |sizes| :: sizes[i] > 0
  }

  // ---- Totals ------------------------------------------------------------------------

  ghost function Total(sizes: seq<nat>): nat {
    if sizes == [] then 0 else Total(sizes[..|sizes| - 1]) + sizes[|sizes| - 1]
  }

  ghost function LoadsBelow(sizes: seq<nat>, a: seq<nat>, r: nat): nat
    requires |a| == |sizes|
  {
    if r == 0 then 0 else LoadsBelow(sizes, a, r - 1) + Load(sizes, a, r - 1)
  }

  lemma {:induction false} LastItemLoads(sizes: seq<nat>, a: seq<nat>, r: nat)
    requires |a| == |sizes| > 0
    ensures var k := |sizes| - 1;
            LoadsBelow(sizes, a, r) == LoadsBelow(sizes[..k], a[..k], r) + if a[k] < r then sizes[k] else 0
  {
    if r > 0 {
      LastItemLoads(sizes, a, r - 1);
    }
  }

  lemma {:induction false} LoadsAddUp(sizes: seq<nat>, a: seq<nat>, m: nat)
    requires Assigns(a, |sizes|, m)
    ensures LoadsBelow(sizes, a, m) == Total(sizes)
    decreases |sizes|
  {
    var k := |sizes| - 1;
    if sizes == [] {
      NoLoads(a, m);
    } else {
      LastItemLoads(sizes, a, m);
      LoadsAddUp(sizes[..k], a[..k], m);
    }
  }

  lemma {:induction false} NoLoads(a: seq<nat>, m: nat)
    requires a == []
    ensures LoadsBelow([], a, m) == 0
  {
    if m > 0 {
      NoLoads(a, m - 1);
    }
  }

  lemma {:induction false} LoadsBetween(sizes: seq<nat>, a: seq<nat>, r: nat, lo: nat, hi: nat)
    requires |a| == |sizes| && forall q: nat | q < r :: lo <= Load(sizes, a, q) <= hi
    ensures r * lo <= LoadsBelow(sizes, a, r) <= r * hi
  {
    if r > 0 {
      LoadsBetween(sizes, a, r - 1, lo, hi);
      assert r * lo == (r - 1) * lo + lo && r * hi == (r - 1) * hi + hi;
    }
  }

  lemma {:induction false} PrefixLoads(sizes: seq<nat>, a: seq<nat>, k: nat, r: nat)
    requires |a| == |sizes| && k <= |sizes|
    ensures Load(sizes[..k], a[..k], r) <= Load(sizes, a, r)
    decreases |sizes|
  {
    var n := |sizes| - 1;
    if k <= n {
      PrefixLoads(sizes[..n], a[..n], k, r);
      assert sizes[..n][..k] == sizes[..k] && a[..n][..k] == a[..k];
    } else {
      assert sizes[..k] == sizes && a[..k] == a;
    }
  }

  lemma {:induction false} OneItem(sizes: seq<nat>, a: seq<nat>, i: nat)
    requires |a| == |sizes| && i < |a|
    ensures sizes[i] <= Load(sizes, a, a[i])
  {
    PrefixLoads(sizes, a, i + 1, a[i]);
    assert sizes[..i + 1][..i] == sizes[..i] && a[..i + 1][..i] == a[..i];
  }

  lemma TwoItems(sizes: seq<nat>, a: seq<nat>, i: nat, j: nat)
    requires |a| == |sizes| && i < j < |a| && a[i] == a[j]
    ensures sizes[i] + sizes[j] <= Load(sizes, a, a[i])
  {
    OneItem(sizes[..j], a[..j], i);
    PrefixLoads(sizes, a, j + 1, a[j]);
    assert sizes[..j + 1][..j] == sizes[..j] && a[..j + 1][..j] == a[..j];
  }

  // ---- Counting ----------------------------------------------------------------------

  ghost function Count(a: seq<nat>, r: nat): nat {
    if a == [] then 0 else Count(a[..|a| - 1], r) + if a[|a| - 1] == r then 1 else 0
  }

  ghost function CountBelow(a: seq<nat>, r: nat): nat {
    if r == 0 then 0 else CountBelow(a, r - 1) + Count(a, r - 1)
  }

  lemma {:induction false} CountsAddUp(a: seq<nat>, m: nat)
    requires forall i | 0 <= i < |a| :: a[i] < m
    ensures CountBelow(a, m) == |a|
    decreases |a|
  {
    if a == [] {
      NoCounts(m);
    } else {
      CountsAddUp(a[..|a| - 1], m);
      LastCounts(a, m);
    }
  }

  lemma {:induction false} NoCounts(m: nat)
    ensures CountBelow([], m) == 0
  {
    if m > 0 {
      NoCounts(m - 1);
    }
  }

  lemma {:induction false} LastCounts(a: seq<nat>, r: nat)
    requires a != []
    ensures CountBelow(a, r) == CountBelow(a[..|a| - 1], r) + if a[|a| - 1] < r then 1 else 0
  {
    if r > 0 {
      LastCounts(a, r - 1);
    }
  }

  lemma {:induction false} CountLoad(sizes: seq<nat>, a: seq<nat>, r: nat, least: nat)
    requires |a| == |sizes| && forall i | 0 <= i < |sizes| :: sizes[i] >= least
    ensures Count(a, r) * least <= Load(sizes, a, r)
    decreases |sizes|
  {
    if sizes != [] {
      var k := |sizes| - 1;
      CountLoad(sizes[..k], a[..k], r, least);
      if a[k] == r {
        assert Count(a, r) * least == Count(a[..k], r) * least + least;
      }
    }
  }

  /** Roles in `single` hold one item, the others at most two. */
  lemma {:induction false} CountBound(a: seq<nat>, single: set<nat>, r: nat)
    requires forall q: nat | q < r :: Count(a, q) <= if q in single then 1 else 2
    ensures CountBelow(a, r) + |set q: nat | q < r && q in single| <= 2 * r
  {
    if r > 0 {
      CountBound(a, single, r - 1);
      var now, before := set q: nat | q < r && q in single, set q: nat | q < r - 1 && q in single;
      if r - 1 in single {
        assert now == before + {r - 1};
      } else {
        assert now == before;
      }
    }
  }

  lemma {:induction false} AloneCounts(a: seq<nat>, i: nat)
    requires i < |a| && forall j | 0 <= j < |a| && j != i :: a[j] != a[i]
    ensures Count(a, a[i]) == 1
    decreases |a|
  {
    var k := |a| - 1;
    if i == k {
      AbsentCounts(a[..k], a[i]);
    } else {
      AloneCounts(a[..k], i);
    }
  }

  lemma {:induction false} AbsentCounts(a: seq<nat>, r: nat)
    requires forall j | 0 <= j < |a| :: a[j] != r
    ensures Count(a, r) == 0
    decreases |a|
  {
    if a != [] {
      AbsentCounts(a[..|a| - 1], r);
    }
  }

  lemma {:induction false} DistinctSize(a: seq<nat>)
    requires forall i, j | 0 <= i < j < |a| :: a[i] != a[j]
    ensures |set i | 0 <= i < |a| :: a[i]| == |a|
    decreases |a|
  {
    if a != [] {
      var k := |a| - 1;
      DistinctSize(a[..k]);
      assert (set i | 0 <= i < |a| :: a[i]) == (set i | 0 <= i < k :: a[..k][i]) + {a[k]};
    }
  }

  // ---- The greedy rule ---------------------------------------------------------------

  lemma {:induction false} GreedyPrefix(sizes: seq<nat>, m: nat, k: nat)
    requires m > 0 && k <= |sizes|
    ensures Greedy(sizes, m)[..k] == Greedy(sizes[..k], m)
    decreases |sizes|
  {
    var n := |sizes| - 1;
    if k <= n {
      GreedyPrefix(sizes[..n], m, k);
      assert sizes[..n][..k] == sizes[..k];
    } else {
      assert sizes[..k] == sizes && Greedy(sizes, m)[..k] == Greedy(sizes, m);
    }
  }

  /** The loads before item `k` is given away. */
  function LoadsBefore(sizes: seq<nat>, m: nat, k: nat): (l: seq<nat>)
    requires m > 0 && k <= |sizes|
    ensures |l| == m
  {
    Loads(sizes[..k], Greedy(sizes[..k], m), m)
  }

  /** What the greedy rule does with the last item. */
  lemma GreedyLast(sizes: seq<nat>, m: nat)
    requires m > 0 && sizes != []
    ensures var n := |sizes| - 1;
            var before := Loads(sizes[..n], Greedy(sizes[..n], m), m);
            && Greedy(sizes, m)[n] == LeastLoaded(before)
            && forall r | 0 <= r < m ::
                 Loads(sizes, Greedy(sizes, m), m)[r] == before[r] + if r == Greedy(sizes, m)[n] then sizes[n] else 0
  {
    var n := |sizes| - 1;
    assert Greedy(sizes, m)[..n] == Greedy(sizes[..n], m);
  }

  lemma GreedyStep(sizes: seq<nat>, m: nat, k: nat)
    requires m > 0 && k < |sizes|
    ensures Greedy(sizes, m)[k] == LeastLoaded(LoadsBefore(sizes, m, k))
    ensures forall r | 0 <= r < m ::
      LoadsBefore(sizes, m, k + 1)[r] == LoadsBefore(sizes, m, k)[r] + if r == Greedy(sizes, m)[k] then sizes[k] else 0
  {
    hide Greedy, Load;
    GreedyPrefix(sizes, m, k + 1);
    assert sizes[..k + 1][..k] == sizes[..k];
    GreedyLast(sizes[..k + 1], m);
  }

  /** Each of the first `k` roles holds one item, the others none. */
  ghost predicate OneEach(sizes: seq<nat>, l: seq<nat>, k: nat)
    requires k <= |sizes| && k <= |l|
  {
    forall r | 0 <= r < |l| :: l[r] == if r < k then sizes[r] else 0
  }

  /** The first items each get a role of their own, in order. */
  lemma {:induction false} FirstItems(sizes: seq<nat>, m: nat, k: nat)
    requires m > 0 && k <= |sizes| && k <= m && Positive(sizes)
    ensures OneEach(sizes, LoadsBefore(sizes, m, k), k)
    ensures forall i | 0 <= i < k :: Greedy(sizes, m)[i] == i
  {
    if k == 0 {
      assert sizes[..0] == [];
    } else {
      FirstItems(sizes, m, k - 1);
      NextFirstItem(sizes, m, k - 1);
      hide LoadsBefore, Greedy, OneEach;
    }
  }

  lemma NextFirstItem(sizes: seq<nat>, m: nat, k: nat)
    requires m > 0 && k < |sizes| && k < m && Positive(sizes)
    requires OneEach(sizes, LoadsBefore(sizes, m, k), k)
    ensures Greedy(sizes, m)[k] == k
    ensures OneEach(sizes, LoadsBefore(sizes, m, k + 1), k + 1)
  {
    hide OneEach, LoadsBefore, Greedy, LeastLoaded;
    GreedyStep(sizes, m, k);
    GiveToFirstFree(sizes, LoadsBefore(sizes, m, k), LoadsBefore(sizes, m, k + 1), k);
  }

  lemma GiveToFirstFree(sizes: seq<nat>, l: seq<nat>, l': seq<nat>, k: nat)
    requires k < |l| == |l'| && k < |sizes| && Positive(sizes) && OneEach(sizes, l, k)
    requires forall r | 0 <= r < |l| :: l'[r] == l[r] + if r == LeastLoaded(l) then sizes[k] else 0
    ensures LeastLoaded(l) == k && OneEach(sizes, l', k + 1)
  {
    hide LeastLoaded;
    FirstFree(l, k);
  }

  lemma FirstFree(l: seq<nat>, k: nat)
    requires k < |l| && l[k] == 0 && forall i | 0 <= i < k :: l[i] > 0
    ensures LeastLoaded(l) == k
  {
    hide LeastLoaded;
    assert l[LeastLoaded(l)] <= l[k];
  }

  /** A role that gets none of the items from `m` on keeps the item it got first. */
  lemma {:induction false} UntouchedRole(sizes: seq<nat>, m: nat, k: nat, r: nat)
    requires 0 < m <= k <= |sizes| && Positive(sizes) && r < m
    requires forall i | m <= i < k :: Greedy(sizes, m)[i] != r
    ensures LoadsBefore(sizes, m, k)[r] == sizes[r]
    decreases k
  {
    hide LoadsBefore, Greedy;
    if k == m {
      FirstItems(sizes, m, m);
    } else {
      UntouchedRole(sizes, m, k - 1, r);
      GreedyStep(sizes, m, k - 1);
    }
  }

  /** Fewer picks than candidates leave a candidate out. */
  lemma {:induction false} SomeLeftOut(s: seq<nat>, lo: nat, hi: nat) returns (r: nat)
    requires lo + |s| < hi
    ensures lo <= r < hi && r !in s
  {
    if lo in s {
      var i :| 0 <= i < |s| && s[i] == lo;
      var rest := s[..i] + s[i + 1..];
      r := SomeLeftOut(rest, lo + 1, hi);
      assert forall x | x in s && x != lo :: x in rest by {
        forall x | x in s && x != lo ensures x in rest {
          var j :| 0 <= j < |s| && s[j] == x;
          assert if j < i then rest[j] == x else rest[j - 1] == x;
        }
      }
    } else {
      r := lo;
    }
  }

  // ---- The balance of the greedy rule ------------------------------------------------

  lemma NoneShares(a: seq<nat>, m: nat, t: nat)
    requires t <= |a| && forall i | 0 <= i < |a| :: a[i] < m
    requires forall r: nat | r < m :: Count(a, r) <= 2
    requires forall i, j | 0 <= i < t && 0 <= j < |a| && i != j :: a[i] != a[j]
    ensures |a| + t <= 2 * m
  {
    var single := set k | 0 <= k < t :: a[k];
    forall q: nat | q < m ensures Count(a, q) <= if q in single then 1 else 2 {
      if q in single {
        var k: nat :| k < t && a[k] == q;
        AloneCounts(a, k);
      }
    }
    CountBound(a, single, m);
    CountsAddUp(a, m);
    DistinctSize(a[..t]);
    assert single == set k | 0 <= k < t :: a[..t][k];
    assert single == set q: nat | q < m && q in single;
  }

  /** One of the `m - h + 1` largest of `m + h` items shares its role with another item, under
      any assignment that puts at most two items in a role. */
  lemma SomePairShares(a: seq<nat>, m: nat, h: nat) returns (i: nat, j: nat)
    requires 0 < h <= m && Assigns(a, m + h, m)
    requires forall r: nat | r < m :: Count(a, r) <= 2
    ensures i <= m - h && j < m + h && i != j && a[i] == a[j]
  {
    i, j := 0, 0;
    if i0, j0 :| 0 <= i0 <= m - h && 0 <= j0 < |a| && i0 != j0 && a[i0] == a[j0] {
      i, j := i0, j0;
    } else {
      NoneShares(a, m, m - h + 1);
    }
  }

  lemma AtMostTwo(sizes: seq<nat>, a: seq<nat>, r: nat, least: nat, best: nat)
    requires |a| == |sizes| && forall i | 0 <= i < |sizes| :: sizes[i] >= least
    requires Load(sizes, a, r) <= best < 3 * least
    ensures Count(a, r) <= 2
  {
    assert Count(a, r) >= 3 ==> Count(a, r) * least >= 3 * least;
    CountLoad(sizes, a, r, least);
  }

  /** A big last item fits: it goes on top of a load that some assignment of the same items
      must also combine with at least its size. */
  lemma BigItemFits(sizes: seq<nat>, a: seq<nat>, m: nat, best: nat)
    requires m > 0 && sizes != [] && NonIncreasing(sizes) && Positive(sizes) && Assigns(a, |sizes|, m)
    requires forall r: nat | r < m :: Load(sizes, a, r) <= best
    requires best < 3 * sizes[|sizes| - 1]
    ensures var l := LoadsBefore(sizes, m, |sizes| - 1);
            l[LeastLoaded(l)] + sizes[|sizes| - 1] <= best
  {
    var k := |sizes| - 1;
    var l := LoadsBefore(sizes, m, k);
    if k < m {
      FirstItems(sizes, m, k);
      assert l[k] == 0;
      OneItem(sizes, a, k);
    } else {
      var h := k + 1 - m;
      forall r: nat | r < m ensures Count(a, r) <= 2 {
        AtMostTwo(sizes, a, r, sizes[k], best);
      }
      CountBound(a, {}, m);
      CountsAddUp(a, m);
      var i, j := SomePairShares(a, m, h);
      TwoItems(sizes, a, if i < j then i else j, if i < j then j else i);
      assert sizes[m - h] + sizes[k] <= best;
      var r := SomeLeftOut(Greedy(sizes, m)[m..k], m - h, m);
      forall t | m <= t < k ensures Greedy(sizes, m)[t] != r {
        assert Greedy(sizes, m)[m..k][t - m] == Greedy(sizes, m)[t];
      }
      UntouchedRole(sizes, m, k, r);
      assert l[LeastLoaded(l)] <= l[r] == sizes[r] <= sizes[m - h];
    }
  }

  lemma LeastIsAverage(sizes: seq<nat>, a: seq<nat>, m: nat, least: nat)
    requires |a| == |sizes| && Assigns(a, |sizes|, m) && forall r: nat | r < m :: least <= Load(sizes, a, r)
    ensures m * least <= Total(sizes)
  {
    LoadsBetween(sizes, a, m, least, least + MaxOf(Loads(sizes, a, m)));
    LoadsAddUp(sizes, a, m);
  }

  /** A small last item fits: the least loaded role holds at most the average. */
  lemma SmallItemFits(sizes: seq<nat>, a: seq<nat>, m: nat, best: nat)
    requires m > 0 && sizes != [] && Assigns(a, |sizes|, m)
    requires forall r: nat | r < m :: Load(sizes, a, r) <= best
    requires 3 * sizes[|sizes| - 1] <= best
    ensures var l := LoadsBefore(sizes, m, |sizes| - 1);
            3 * m * (l[LeastLoaded(l)] + sizes[|sizes| - 1]) <= (4 * m - 1) * best
  {
    var k := |sizes| - 1;
    var l := LoadsBefore(sizes, m, k);
    var least, last := l[LeastLoaded(l)], sizes[k];
    LeastIsAverage(sizes[..k], Greedy(sizes[..k], m), m, least);
    hide LoadsBefore, LeastLoaded, Greedy;
    LoadsBetween(sizes, a, m, 0, best);
    LoadsAddUp(sizes, a, m);
    AverageArithmetic(m, least, last, best);
  }

  lemma Times(m: nat, x: nat, y: nat)
    ensures m * (x + y) == m * x + m * y
    ensures 3 * m * x == 3 * (m * x) && (4 * m - 1) * x == 4 * (m * x) - x
  {
  }

  lemma Scaled(m: nat, a: int, b: int)
    requires a <= b
    ensures m * a <= m * b
  {
  }

  lemma AverageArithmetic(m: nat, least: nat, last: nat, best: nat)
    requires m > 0 && m * least + last <= m * best && 3 * last <= best
    ensures 3 * m * (least + last) <= (4 * m - 1) * best
  {
    var p, q, r := m * least, m * last, m * best;
    assert 3 * m * (least + last) == 3 * p + 3 * q by {
      Times(m, least, last);
      Times(m, least + last, 0);
    }
    assert (4 * m - 1) * best == 4 * r - best;
    assert 3 * q - 3 * last <= r - best by {
      Scaled(m - 1, 3 * last, best);
      assert (m - 1) * (3 * last) == 3 * q - 3 * last;
      assert (m - 1) * best == r - best;
    }
  }

  lemma BestArithmetic(m: nat, load: nat, best: nat)
    requires m > 0 && load <= best
    ensures 3 * m * load <= (4 * m - 1) * best
  {
    Times(m, load, best - load);
    Times(m, best, 0);
    assert m * best >= best by {
      assert m * best == (m - 1) * best + best;
    }
  }

  function MaxOf(l: seq<nat>): (b: nat)
    ensures forall r | 0 <= r < |l| :: l[r] <= b
  {
    if l == [] then 0
    else
      var b := MaxOf(l[..|l| - 1]);
      assert forall r | 0 <= r < |l| - 1 :: l[..|l| - 1][r] == l[r];
      if b < l[|l| - 1] then l[|l| - 1] else b
  }

  /** Giving items, largest first, to the least loaded of `m` roles, no role gets more than
      4/3 - 1/(3m) times what the heaviest role gets under any other assignment. */
  lemma {:induction false} GreedyIsBalanced(sizes: seq<nat>, a: seq<nat>, m: nat, best: nat, r: nat)
    requires m > 0 && NonIncreasing(sizes) && Positive(sizes) && Assigns(a, |sizes|, m) && r < m
    requires forall q: nat | q < m :: Load(sizes, a, q) <= best
    ensures 3 * m * Load(sizes, Greedy(sizes, m), r) <= (4 * m - 1) * best
    decreases |sizes|
  {
    if sizes == [] {
      BestArithmetic(m, 0, best);
    } else {
      var k := |sizes| - 1;
      forall q: nat | q < m ensures Load(sizes[..k], a[..k], q) <= best {
        PrefixLoads(sizes, a, k, q);
      }
      GreedyIsBalanced(sizes[..k], a[..k], m, best, r);
      LastStep(sizes, a, m, best, r);
    }
  }

  lemma LastStep(sizes: seq<nat>, a: seq<nat>, m: nat, best: nat, r: nat)
    requires m > 0 && sizes != [] && NonIncreasing(sizes) && Positive(sizes) && Assigns(a, |sizes|, m) && r < m
    requires forall q: nat | q < m :: Load(sizes, a, q) <= best
    requires var k := |sizes| - 1; 3 * m * Load(sizes[..k], Greedy(sizes[..k], m), r) <= (4 * m - 1) * best
    ensures 3 * m * Load(sizes, Greedy(sizes, m), r) <= (4 * m - 1) * best
  {
    hide Load, Greedy, LeastLoaded;
    var k := |sizes| - 1;
    var l := LoadsBefore(sizes, m, k);
    GreedyStep(sizes, m, k);
    assert sizes[..k + 1] == sizes;
    assert Load(sizes, Greedy(sizes, m), r) == LoadsBefore(sizes, m, k + 1)[r];
    assert l[r] == Load(sizes[..k], Greedy(sizes[..k], m), r);
    hide LoadsBefore;
    if r == LeastLoaded(l) {
      if best < 3 * sizes[k] {
        BigItemFits(sizes, a, m, best);
        BestArithmetic(m, l[r] + sizes[k], best);
      } else {
        SmallItemFits(sizes, a, m, best);
      }
    }
  }

  /** For the four roles the factor is 5/4. */
  lemma FourRoles(sizes: seq<nat>, a: seq<nat>, best: nat, r: nat)
    requires NonIncreasing(sizes) && Positive(sizes) && Assigns(a, |sizes|, 4) && r < 4
    requires forall q: nat | q < 4 :: Load(sizes, a, q) <= best
    ensures 4 * Load(sizes, Greedy(sizes, 4), r) <= 5 * best
  {
    GreedyIsBalanced(sizes, a, 4, best, r);
  }

  /** Two roles never differ by more than the largest component. */
  lemma {:induction false} GreedySpread(sizes: seq<nat>, m: nat, r: nat, q: nat, largest: nat)
    requires m > 0 && r < m && q < m && forall i | 0 <= i < |sizes| :: sizes[i] <= largest
    ensures Load(sizes, Greedy(sizes, m), r) <= Load(sizes, Greedy(sizes, m), q) + largest
    decreases |sizes|
  {
    if sizes != [] {
      var k := |sizes| - 1;
      GreedySpread(sizes[..k], m, r, q, largest);
      GreedyStep(sizes, m, k);
      assert sizes[..k + 1] == sizes;
      assert Load(sizes, Greedy(sizes, m), r) == LoadsBefore(sizes, m, k + 1)[r];
      assert Load(sizes, Greedy(sizes, m), q) == LoadsBefore(sizes, m, k + 1)[q];
    }
  }

  /** With at least as many components as roles no role stays empty. */
  lemma NoRoleEmpty(sizes: seq<nat>, m: nat, r: nat)
    requires 0 < m <= |sizes| && Positive(sizes) && r < m
    ensures r in Greedy(sizes, m)
  {
    FirstItems(sizes, m, m);
    assert Greedy(sizes, m)[r] == r;
  }
}
