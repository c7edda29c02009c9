/**
 * Assignments seen as rules that carry literals to variables, applied in
 * place, one after the other, pass after pass.
 */
module ModuleRules {
  import opened Sets

  /** One assignment: the literals and the names its value draws on, and the names it assigns. */
  datatype Rule<V> = Rule(texts: set<string>, names: set<V>, targets: set<V>)

  /** What each variable holds. */
  type Literals<V(!new)> = map<V, set<string>>

  function At<V(!new, ==)>(env: Literals<V>, x: V): set<string> {
    if x in env then env[x] else {}
  }

  function Drawn<V(!new, ==)>(env: Literals<V>, names: set<V>): set<string> {
    set x, a | x in names && x in env && a in env[x] :: a
  }

  function Give<V(!new, ==)>(env: Literals<V>, targets: set<V>, literals: set<string>): Literals<V> {
    map x | x in env.Keys + targets :: if x in targets then At(env, x) + literals else env[x]
  }

  function Fire<V(!new, ==)>(env: Literals<V>, rule: Rule<V>): Literals<V> {
    Give(env, rule.targets, rule.texts + Drawn(env, rule.names))
  }

  function Pass<V(!new, ==)>(env: Literals<V>, rules: seq<Rule<V>>): Literals<V>
    decreases |rules|
  {
    if rules == [] then env else Pass(Fire(env, rules[0]), rules[1..])
  }

  function Passes<V(!new, ==)>(rules: seq<Rule<V>>, k: nat): Literals<V> {
    if k == 0 then map[] else Pass(Passes(rules, k - 1), rules)
  }

  // What one pass does, literal by literal.

  /** The names that hold the literal `a`. */
  ghost function Holders<V(!new)>(env: Literals<V>, a: string): set<V> {
    set x | x in env && a in env[x]
  }

  ghost predicate Grown<V(!new)>(env: Literals<V>, env': Literals<V>) {
    env.Keys <= env'.Keys && forall x :: x in env ==> env[x] <= env'[x]
  }

  /** The rule has nothing left to carry. */
  ghost predicate Closed<V(!new)>(env: Literals<V>, rule: Rule<V>) {
    rule.targets <= env.Keys && forall x :: x in rule.targets ==> rule.texts + Drawn(env, rule.names) <= env[x]
  }

  lemma FireGrows<V(!new)>(env: Literals<V>, rule: Rule<V>)
    ensures Grown(env, Fire(env, rule))
  {
  }

  lemma {:induction false} PassGrows<V(!new)>(env: Literals<V>, rules: seq<Rule<V>>)
    ensures Grown(env, Pass(env, rules))
    decreases |rules|
  {
    if rules != [] {
      FireGrows(env, rules[0]);
      PassGrows(Fire(env, rules[0]), rules[1..]);
    }
  }

  lemma GrownBothWays<V(!new)>(env: Literals<V>, env': Literals<V>)
    requires Grown(env, env') && Grown(env', env)
    ensures env == env'
  {
    assert env.Keys == env'.Keys;
    forall x | x in env ensures env[x] == env'[x] {
    }
  }

  /** A pass that changes nothing leaves every rule closed. */
  lemma {:induction false} StablePassIsClosed<V(!new)>(env: Literals<V>, rules: seq<Rule<V>>, i: nat)
    requires Pass(env, rules) == env && i < |rules|
    ensures Closed(env, rules[i])
    decreases |rules|
  {
    var next := Fire(env, rules[0]);
    FireGrows(env, rules[0]);
    PassGrows(next, rules[1..]);
    GrownBothWays(env, next);
    if i == 0 {
      assert rules[0].targets <= next.Keys;
    } else {
      StablePassIsClosed(env, rules[1..], i - 1);
    }
  }

  /** The rules whose targets all hold `a`. */
  ghost function Done<V(!new)>(env: Literals<V>, rules: seq<Rule<V>>, a: string): set<int> {
    set i | 0 <= i < |rules| && rules[i].targets <= Holders(env, a)
  }

  lemma {:induction false} DoneIsSmall<V(!new)>(env: Literals<V>, rules: seq<Rule<V>>, a: string)
    ensures |Done(env, rules, a)| <= |rules|
    decreases |rules|
  {
    if rules == [] {
      assert Done(env, rules, a) == {};
    } else {
      var last := |rules| - 1;
      DoneIsSmall(env, rules[..last], a);
      SubsetCount(Done(env, rules, a), Done(env, rules[..last], a) + {last});
    }
  }

  lemma ProperSubsetIsSmaller(s: set<int>, t: set<int>, x: int)
    requires s <= t && x in t && x !in s
    ensures |s| < |t|
  {
    SubsetCount(s, t - {x});
  }

  lemma DoneGrows<V(!new)>(env: Literals<V>, env': Literals<V>, rules: seq<Rule<V>>, a: string)
    requires Grown(env, env')
    ensures Done(env, rules, a) <= Done(env', rules, a)
  {
    assert Holders(env, a) <= Holders(env', a);
  }

  /**
   * When a pass gives the literal a new holder, some rule whose targets did
   * not all hold it has carried it to all of them.
   */
  lemma {:induction false} NewHolderMeansRuleDone<V(!new)>(env: Literals<V>, rules: seq<Rule<V>>, a: string, x: V) returns (i: nat)
    requires x in Holders(Pass(env, rules), a) && x !in Holders(env, a)
    ensures i < |rules| && !(rules[i].targets <= Holders(env, a))
    ensures rules[i].targets <= Holders(Pass(env, rules), a)
    decreases |rules|
  {
    var next := Fire(env, rules[0]);
    FireGrows(env, rules[0]);
    PassGrows(next, rules[1..]);
    if x in Holders(next, a) {
      i := 0;
      assert x in rules[0].targets && a in rules[0].texts + Drawn(env, rules[0].names);
      assert rules[0].targets <= Holders(next, a);
    } else {
      var j := NewHolderMeansRuleDone(next, rules[1..], a, x);
      i := j + 1;
      assert Holders(env, a) <= Holders(next, a);
    }
  }

  /** A pass that gives a literal a new holder finishes one more rule for it. */
  lemma MovingLiteralFinishesOne<V(!new)>(before: Literals<V>, rules: seq<Rule<V>>, a: string)
    requires Holders(Pass(before, rules), a) != Holders(before, a)
    ensures |Done(Pass(before, rules), rules, a)| > |Done(before, rules, a)|
  {
    hide Pass;
    var after := Pass(before, rules);
    PassGrows(before, rules);
    assert Holders(before, a) <= Holders(after, a);
    var x :| x in Holders(after, a) && x !in Holders(before, a);
    var i := NewHolderMeansRuleDone(before, rules, a, x);
    DoneGrows(before, after, rules, a);
    ProperSubsetIsSmaller(Done(before, rules, a), Done(after, rules, a), i);
  }

  lemma PassAfterPass<V(!new)>(rules: seq<Rule<V>>, k: nat)
    ensures Passes(rules, k + 1) == Pass(Passes(rules, k), rules)
  {
  }

  /** It moved in pass `k` already. */
  lemma MovingLiteralMoved<V(!new)>(rules: seq<Rule<V>>, k: nat, a: string)
    requires k > 0 && Holders(Passes(rules, k + 1), a) != Holders(Passes(rules, k), a)
    ensures Holders(Passes(rules, k), a) != Holders(Passes(rules, k - 1), a)
  {
    PassAfterPass(rules, k);
    PassAfterPass(rules, k - 1);
    hide *;
    if Holders(Passes(rules, k), a) == Holders(Passes(rules, k - 1), a) {
      StillLiteralStays(Passes(rules, k - 1), Passes(rules, k), rules, a);
    }
  }

  /** A literal still moving in pass `k + 1` has finished with at least `k + 1` rules by its end. */
  lemma {:induction false} MovingLiteralFinishesRules<V(!new)>(rules: seq<Rule<V>>, k: nat, a: string)
    requires Holders(Passes(rules, k + 1), a) != Holders(Passes(rules, k), a)
    ensures |Done(Passes(rules, k + 1), rules, a)| > k
  {
    PassAfterPass(rules, k);
    hide *;
    MovingLiteralFinishesOne(Passes(rules, k), rules, a);
    if k > 0 {
      MovingLiteralMoved(rules, k, a);
      MovingLiteralFinishesRules(rules, k - 1, a);
    }
  }

  /** How one pass moves one literal depends on its holders alone. */
  lemma {:induction false} StillLiteralStays<V(!new)>(env: Literals<V>, env': Literals<V>, rules: seq<Rule<V>>, a: string)
    requires Holders(env, a) == Holders(env', a)
    ensures Holders(Pass(env, rules), a) == Holders(Pass(env', rules), a)
    decreases |rules|
  {
    if rules != [] {
      assert a in Drawn(env, rules[0].names) <==> rules[0].names * Holders(env, a) != {} by { DrawnMeansHeld(env, rules[0].names, a); }
      assert a in Drawn(env', rules[0].names) <==> rules[0].names * Holders(env', a) != {} by { DrawnMeansHeld(env', rules[0].names, a); }
      FireHolders(env, rules[0], a);
      FireHolders(env', rules[0], a);
      StillLiteralStays(Fire(env, rules[0]), Fire(env', rules[0]), rules[1..], a);
    }
  }

  lemma DrawnMeansHeld<V(!new)>(env: Literals<V>, names: set<V>, a: string)
    ensures a in Drawn(env, names) <==> names * Holders(env, a) != {}
  {
    if a in Drawn(env, names) {
      var x :| x in names && x in env && a in env[x];
      assert x in names * Holders(env, a);
    }
    if names * Holders(env, a) != {} {
      var x :| x in names * Holders(env, a);
    }
  }

  lemma FireHolders<V(!new)>(env: Literals<V>, rule: Rule<V>, a: string)
    ensures Holders(Fire(env, rule), a) ==
            if a in rule.texts || a in Drawn(env, rule.names) then Holders(env, a) + rule.targets else Holders(env, a)
  {
  }

  lemma SameHoldersAreEqual<V(!new)>(env: Literals<V>, env': Literals<V>)
    requires env.Keys == env'.Keys && forall a :: Holders(env, a) == Holders(env', a)
    ensures env == env'
  {
    forall x | x in env ensures env[x] == env'[x] {
      forall a ensures a in env[x] <==> a in env'[x] {
        assert a in env[x] <==> x in Holders(env, a);
        assert a in env'[x] <==> x in Holders(env', a);
      }
    }
  }

  lemma {:induction false} PassKeys<V(!new)>(env: Literals<V>, rules: seq<Rule<V>>)
    ensures Pass(env, rules).Keys == env.Keys + set i, x | 0 <= i < |rules| && x in rules[i].targets :: x
    decreases |rules|
  {
    if rules != [] {
      PassKeys(Fire(env, rules[0]), rules[1..]);
      var tail := set i, x | 0 <= i < |rules[1..]| && x in rules[1..][i].targets :: x;
      var all := set i, x | 0 <= i < |rules| && x in rules[i].targets :: x;
      forall x | x in all ensures x in rules[0].targets + tail {
        var i :| 0 <= i < |rules| && x in rules[i].targets;
        if i > 0 {
          assert x in rules[1..][i - 1].targets;
        }
      }
      assert all == rules[0].targets + tail;
    }
  }

  /** As many passes as there are rules reach a fixed point, in whatever order the rules come. */
  lemma PassesConverge<V(!new)>(rules: seq<Rule<V>>)
    ensures Pass(Passes(rules, |rules|), rules) == Passes(rules, |rules|)
  {
    var n := |rules|;
    var before, after := Passes(rules, n), Passes(rules, n + 1);
    forall a ensures Holders(after, a) == Holders(before, a) {
      if Holders(after, a) != Holders(before, a) {
        DoneIsSmall(after, rules, a);
        MovingLiteralFinishesRules(rules, n, a);
        assert false;
      }
    }
    if n > 0 {
      PassKeys(Passes(rules, n - 1), rules);
      PassKeys(before, rules);
    }
    SameHoldersAreEqual(after, before);
  }

  // What the fixed point is: the literals that reach a variable through a chain of assignments.

  /** A chain of rules from the literal `a` to the variable `x`, each drawing on what the one before assigns. */
  ghost predicate Chain<V(!new)>(chain: seq<Rule<V>>, rules: seq<Rule<V>>, a: string, x: V) {
    && chain != []
    && (forall i :: 0 <= i < |chain| ==> chain[i] in rules)
    && a in chain[0].texts
    && (forall i :: 0 < i < |chain| ==> chain[i].names * chain[i - 1].targets != {})
    && x in chain[|chain| - 1].targets
  }

  ghost predicate Reaches<V(!new)>(rules: seq<Rule<V>>, a: string, x: V) {
    exists chain :: Chain(chain, rules, a, x)
  }

  ghost predicate OnlyReached<V(!new)>(env: Literals<V>, rules: seq<Rule<V>>) {
    forall x, a :: x in env && a in env[x] ==> Reaches(rules, a, x)
  }

  lemma FireOnlyReaches<V(!new)>(env: Literals<V>, rules: seq<Rule<V>>, rule: Rule<V>)
    requires OnlyReached(env, rules) && rule in rules
    ensures OnlyReached(Fire(env, rule), rules)
  {
    var next := Fire(env, rule);
    forall x, a | x in next && a in next[x] ensures Reaches(rules, a, x) {
      if !(x in env && a in env[x]) {
        if a in rule.texts {
          assert Chain([rule], rules, a, x);
        } else {
          var y :| y in rule.names && y in env && a in env[y];
          var chain: seq<Rule<V>> :| Chain(chain, rules, a, y);
          assert y in rule.names * chain[|chain| - 1].targets;
          assert Chain(chain + [rule], rules, a, x);
        }
      }
    }
  }

  lemma {:induction false} PassOnlyReaches<V(!new)>(env: Literals<V>, rules: seq<Rule<V>>, rest: seq<Rule<V>>)
    requires OnlyReached(env, rules) && forall rule :: rule in rest ==> rule in rules
    ensures OnlyReached(Pass(env, rest), rules)
    decreases |rest|
  {
    if rest != [] {
      FireOnlyReaches(env, rules, rest[0]);
      PassOnlyReaches(Fire(env, rest[0]), rules, rest[1..]);
    }
  }

  lemma {:induction false} PassesOnlyReach<V(!new)>(rules: seq<Rule<V>>, k: nat)
    ensures OnlyReached(Passes(rules, k), rules)
  {
    if k > 0 {
      PassesOnlyReach(rules, k - 1);
      PassOnlyReaches(Passes(rules, k - 1), rules, rules);
    }
  }

  lemma {:induction false} ChainsAreHeld<V(!new)>(env: Literals<V>, rules: seq<Rule<V>>, chain: seq<Rule<V>>, a: string, x: V)
    requires forall rule :: rule in rules ==> Closed(env, rule)
    requires Chain(chain, rules, a, x)
    ensures x in env && a in env[x]
    decreases |chain|
  {
    var rule := chain[|chain| - 1];
    assert Closed(env, rule);
    if |chain| > 1 {
      var before := chain[..|chain| - 1];
      var y :| y in rule.names * before[|before| - 1].targets;
      assert Chain(before, rules, a, y);
      ChainsAreHeld(env, rules, before, a, y);
      assert a in Drawn(env, rule.names);
    }
  }

  /** At the fixed point a variable holds exactly the literals with a chain to it. */
  lemma FixedPointIsReachability<V(!new)>(rules: seq<Rule<V>>, a: string, x: V)
    ensures (x in Passes(rules, |rules|) && a in Passes(rules, |rules|)[x]) <==> Reaches(rules, a, x)
  {
    var env := Passes(rules, |rules|);
    PassesOnlyReach(rules, |rules|);
    if Reaches(rules, a, x) {
      var chain: seq<Rule<V>> :| Chain(chain, rules, a, x);
      PassesConverge(rules);
      forall rule | rule in rules ensures Closed(env, rule) {
        var i :| 0 <= i < |rules| && rules[i] == rule;
        StablePassIsClosed(env, rules, i);
      }
      ChainsAreHeld(env, rules, chain, a, x);
    }
  }
}
