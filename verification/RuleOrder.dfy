/**
 * How many passes a literal takes: a chain of rules advances within a pass
 * while it goes forward in their order, and waits for the next pass whenever
 * it goes back.
 */
module RuleOrder {
  import opened Sets
  import opened ModuleRules

  /** A chain of rule numbers from the literal `a` to the variable `x`. */
  ghost predicate Path<V(!new)>(path: seq<nat>, rules: seq<Rule<V>>, a: string, x: V) {
    && path != []
    && (forall i :: 0 <= i < |path| ==> path[i] < |rules|)
    && a in rules[path[0]].texts
    && (forall i :: 0 < i < |path| ==> rules[path[i]].names * rules[path[i - 1]].targets != {})
    && x in rules[path[|path| - 1]].targets
  }

  /** How often the chain goes back. */
  function Descents(path: seq<nat>): nat {
    if |path| <= 1 then 0
    else
      var last := |path| - 1;
      Descents(path[..last]) + if path[last] <= path[last - 1] then 1 else 0
  }

  /** The number of whole passes after which, with `p` more rules fired, the chain has run. */
  function Cost(path: seq<nat>, p: nat): nat
    requires path != []
  {
    Descents(path) + if path[|path| - 1] < p then 0 else 1
  }

  /** The variables after `k` passes and the first `p` rules of the next. */
  function Midway<V(!new, ==)>(rules: seq<Rule<V>>, k: nat, p: nat): Literals<V>
    requires p <= |rules|
    decreases p
  {
    if p == 0 then Passes(rules, k) else Fire(Midway(rules, k, p - 1), rules[p - 1])
  }

  lemma {:induction false} MidwayIsPass<V(!new)>(rules: seq<Rule<V>>, k: nat, p: nat)
    requires p <= |rules|
    ensures Pass(Midway(rules, k, p), rules[p..]) == Passes(rules, k + 1)
    decreases p
  {
    if p == 0 {
      assert rules[0..] == rules;
    } else {
      MidwayIsPass(rules, k, p - 1);
      assert rules[p - 1..][0] == rules[p - 1] && rules[p - 1..][1..] == rules[p..];
    }
  }

  lemma WholePass<V(!new)>(rules: seq<Rule<V>>, k: nat)
    ensures Midway(rules, k, |rules|) == Passes(rules, k + 1)
  {
    MidwayIsPass(rules, k, |rules|);
    assert rules[|rules|..] == [];
  }

  ghost predicate Holds<V(!new)>(env: Literals<V>, a: string, x: V) {
    x in env && a in env[x]
  }

  ghost predicate InTime<V(!new)>(rules: seq<Rule<V>>, k: nat, p: nat, a: string, x: V) {
    exists path :: Path(path, rules, a, x) && Cost(path, p) <= k
  }

  lemma ExtendPath<V(!new)>(path: seq<nat>, rules: seq<Rule<V>>, a: string, y: V, p: nat, x: V)
    requires Path(path, rules, a, y) && p < |rules| && y in rules[p].names && x in rules[p].targets
    ensures Path(path + [p], rules, a, x) && Cost(path + [p], p + 1) == Cost(path, p)
  {
    var more := path + [p];
    var last := |path| - 1;
    assert more[..|path|] == path;
    assert y in rules[p].names * rules[path[last]].targets;
    forall i | 0 < i < |more| ensures rules[more[i]].names * rules[more[i - 1]].targets != {} {
      if i < |path| {
        assert more[i] == path[i] && more[i - 1] == path[i - 1];
      }
    }
  }

  lemma ShortenPath<V(!new)>(path: seq<nat>, rules: seq<Rule<V>>, a: string, x: V, p: nat) returns (y: V)
    requires Path(path, rules, a, x) && |path| > 1 && path[|path| - 1] == p
    ensures Path(path[..|path| - 1], rules, a, y) && y in rules[p].names
    ensures Cost(path[..|path| - 1], p) == Cost(path, p + 1)
  {
    var last := |path| - 1;
    var shorter := path[..last];
    var both := rules[path[last]].names * rules[path[last - 1]].targets;
    assert both != {};
    y :| y in both;
    forall i | 0 < i < |shorter| ensures rules[shorter[i]].names * rules[shorter[i - 1]].targets != {} {
      assert shorter[i] == path[i] && shorter[i - 1] == path[i - 1];
    }
  }

  /** What is held midway is what the chains have carried. */
  ghost predicate Exact<V(!new)>(rules: seq<Rule<V>>, k: nat, p: nat, a: string, x: V)
    requires p <= |rules|
  {
    Holds(Midway(rules, k, p), a, x) <==> InTime(rules, k, p, a, x)
  }

  /** What the rule `p` adds is what the chains that end with it carry. */
  lemma FiredInTime<V(!new)>(rules: seq<Rule<V>>, k: nat, p: nat, a: string, x: V)
    requires p < |rules|
    requires forall y :: Exact(rules, k, p, a, y)
    ensures Exact(rules, k, p + 1, a, x)
  {
    if Holds(Midway(rules, k, p + 1), a, x) {
      FiredHasPath(rules, k, p, a, x);
    }
    if InTime(rules, k, p + 1, a, x) {
      PathHasFired(rules, k, p, a, x);
    }
  }

  lemma FireHolds<V(!new)>(env: Literals<V>, rule: Rule<V>, a: string, x: V)
    ensures Holds(Fire(env, rule), a, x) <==>
            Holds(env, a, x) || (x in rule.targets && (a in rule.texts || exists y :: y in rule.names && Holds(env, a, y)))
  {
  }

  lemma FiredHasPath<V(!new)>(rules: seq<Rule<V>>, k: nat, p: nat, a: string, x: V)
    requires p < |rules| && Holds(Midway(rules, k, p + 1), a, x)
    requires forall y :: Exact(rules, k, p, a, y)
    ensures InTime(rules, k, p + 1, a, x)
  {
    var env, rule := Midway(rules, k, p), rules[p];
    FireHolds(env, rule, a, x);
    if Holds(env, a, x) {
      assert Exact(rules, k, p, a, x);
      var path :| Path(path, rules, a, x) && Cost(path, p) <= k;
      assert Cost(path, p + 1) <= k;
    } else if a in rule.texts {
      assert Path([p], rules, a, x) && Cost([p], p + 1) == 0;
    } else {
      var y :| y in rule.names && Holds(env, a, y);
      assert Exact(rules, k, p, a, y);
      var path :| Path(path, rules, a, y) && Cost(path, p) <= k;
      ExtendPath(path, rules, a, y, p, x);
    }
  }

  lemma PathHasFired<V(!new)>(rules: seq<Rule<V>>, k: nat, p: nat, a: string, x: V)
    requires p < |rules| && InTime(rules, k, p + 1, a, x)
    requires forall y :: Exact(rules, k, p, a, y)
    ensures Holds(Midway(rules, k, p + 1), a, x)
  {
    FireHolds(Midway(rules, k, p), rules[p], a, x);
    var path :| Path(path, rules, a, x) && Cost(path, p + 1) <= k;
    if path[|path| - 1] != p {
      assert Cost(path, p) == Cost(path, p + 1);
      assert Exact(rules, k, p, a, x) && InTime(rules, k, p, a, x);
    } else if |path| > 1 {
      var y := ShortenPath(path, rules, a, x, p);
      assert Exact(rules, k, p, a, y) && InTime(rules, k, p, a, y);
    }
  }

  lemma {:induction false} MidwayInTime<V(!new)>(rules: seq<Rule<V>>, k: nat, p: nat, a: string, x: V)
    requires p <= |rules|
    ensures Exact(rules, k, p, a, x)
    decreases k, p
  {
    if p > 0 {
      var q: nat := p - 1;
      forall y ensures Exact(rules, k, q, a, y) {
        MidwayInTime(rules, k, q, a, y);
      }
      FiredInTime(rules, k, q, a, x);
    } else if k > 0 {
      WholePass(rules, k - 1);
      MidwayInTime(rules, k - 1, |rules|, a, x);
      BeforeAnyRule(rules, k, a, x);
    } else {
      assert Passes(rules, 0) == map[];
    }
  }

  /** A pass that is over and one that has not begun are the same. */
  lemma BeforeAnyRule<V(!new)>(rules: seq<Rule<V>>, k: nat, a: string, x: V)
    requires k > 0
    ensures InTime(rules, k, 0, a, x) <==> InTime(rules, k - 1, |rules|, a, x)
  {
    if InTime(rules, k, 0, a, x) {
      var path :| Path(path, rules, a, x) && Cost(path, 0) <= k;
      assert Cost(path, |rules|) + 1 == Cost(path, 0);
    }
    if InTime(rules, k - 1, |rules|, a, x) {
      var path :| Path(path, rules, a, x) && Cost(path, |rules|) <= k - 1;
      assert Cost(path, |rules|) + 1 == Cost(path, 0);
    }
  }

  ghost predicate Within<V(!new)>(rules: seq<Rule<V>>, k: nat, a: string, x: V) {
    exists path :: Path(path, rules, a, x) && Descents(path) < k
  }

  /** After `k` passes a variable holds exactly the literals with a chain to it that goes back fewer than `k` times. */
  lemma PassesAreChains<V(!new)>(rules: seq<Rule<V>>, k: nat, a: string, x: V)
    ensures Holds(Passes(rules, k), a, x) <==> Within(rules, k, a, x)
  {
    MidwayInTime(rules, k, 0, a, x);
    if InTime(rules, k, 0, a, x) {
      var path :| Path(path, rules, a, x) && Cost(path, 0) <= k;
      assert Descents(path) < k;
    }
    if Within(rules, k, a, x) {
      var path :| Path(path, rules, a, x) && Descents(path) < k;
      assert Cost(path, 0) <= k;
    }
  }
}
