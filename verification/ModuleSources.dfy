/**
 * The module's variables: what the repeated passes over its assignments
 * find is the fixed point of the rules that the assignments stand for.
 */
module ModuleSources {
  import opened Wrappers
  import opened Provenance
  import opened ProducerSyntax
  import opened ProducerAnalysis
  import opened ModuleRules

  datatype Loaded = Loaded(env: Env, recorded: Sources)

  ghost function AssignAll(p: Program, assignments: seq<Assignment>, env: Env): Loaded
    decreases |assignments|
  {
    if assignments == [] then Loaded(env, NOTHING)
    else
      var first := assignments[0];
      var r := Expression(p, first.value, State(env, env), false, {});
      var rest := AssignAll(p, assignments[1..], AssignEach(first.targets, r.value, r.state.env));
      Loaded(rest.env, Merge(r.recorded, rest.recorded))
  }

  /** At most `k` passes, stopping after the first that changes nothing. */
  ghost function LoadPasses(p: Program, env: Env, k: nat): Loaded
    decreases k
  {
    if k == 0 then Loaded(env, NOTHING)
    else
      var r := AssignAll(p, p.assignments, env);
      if r.env == env then r
      else
        var rest := LoadPasses(p, r.env, k - 1);
        Loaded(rest.env, Merge(r.recorded, rest.recorded))
  }

  ghost function Load(p: Program): Loaded {
    LoadPasses(p, map[], |p.assignments| + 1)
  }

  // The rule of an assignment.

  function Texts(e: Expr): set<string> {
    match e
    case Text(text) => {text}
    case Attribute(value, _) => Texts(value)
    case Call(callee, arguments, keywords) =>
      (if callee.Attribute? then Texts(callee.value) else {}) + ListTexts(arguments) + KeywordTexts(keywords)
    case Elements(elements) => ListTexts(elements)
    case Compound(children) => ListTexts(children)
    case _ => {}
  }

  function ListTexts(es: seq<Expr>): set<string> {
    if es == [] then {} else Texts(es[0]) + ListTexts(es[1..])
  }

  function KeywordTexts(ks: seq<Keyword>): set<string> {
    if ks == [] then {}
    else
      var k := ks[0];
      (if Counts(ks) then assert k.value < k; Texts(k.value) else {}) + KeywordTexts(ks[1..])
  }

  function Names(e: Expr): set<string> {
    match e
    case Name(id) => {id}
    case Attribute(value, _) => Names(value)
    case Call(callee, arguments, keywords) =>
      (if callee.Attribute? then Names(callee.value) else {}) + ListNames(arguments) + KeywordNames(keywords)
    case Elements(elements) => ListNames(elements)
    case Compound(children) => ListNames(children)
    case _ => {}
  }

  function ListNames(es: seq<Expr>): set<string> {
    if es == [] then {} else Names(es[0]) + ListNames(es[1..])
  }

  function KeywordNames(ks: seq<Keyword>): set<string> {
    if ks == [] then {}
    else
      var k := ks[0];
      (if Counts(ks) then assert k.value < k; Names(k.value) else {}) + KeywordNames(ks[1..])
  }

  /** The first keyword is a named one that no later one replaces. */
  predicate Counts(ks: seq<Keyword>)
    requires ks != []
  {
    ks[0].name.Some? && forall k :: k in ks[1..] ==> k.name != ks[0].name
  }

  function Targets(target: Expr): set<string> {
    match target
    case Name(id) => {id}
    case Elements(elements) => AllTargets(elements)
    case _ => {}
  }

  function AllTargets(targets: seq<Expr>): set<string> {
    if targets == [] then {} else Targets(targets[0]) + AllTargets(targets[1..])
  }

  function RuleOf(a: Assignment): Rule<string> {
    Rule(Texts(a.value), Names(a.value), AllTargets(a.targets))
  }

  function RulesOf(assignments: seq<Assignment>): seq<Rule<string>> {
    seq(|assignments|, i requires 0 <= i < |assignments| => RuleOf(assignments[i]))
  }

  // Outside functions values are literals only.

  ghost predicate Flat(s: Sources) {
    s.options == {} && s.attributes == map[]
  }

  ghost predicate FlatEnv(env: Env) {
    forall x :: x in env.Keys ==> Flat(env[x])
  }

  ghost function LiteralsOf(env: Env): Literals<string> {
    map x | x in env.Keys :: env[x].literals
  }

  lemma MergeFlat(a: Sources, b: Sources)
    requires Flat(a) && Flat(b)
    ensures Flat(Merge(a, b)) && Merge(a, b).literals == a.literals + b.literals
  {
    assert Merge(a, b).attributes.Keys == {};
  }

  lemma {:induction false} MergeAllConcat(a: seq<Sources>, b: seq<Sources>)
    ensures MergeAll(a + b) == Merge(MergeAll(a), MergeAll(b))
    decreases |a|
  {
    if a == [] {
      assert a + b == b;
      MergeNothing(MergeAll(b));
    } else {
      assert (a + b)[1..] == a[1..] + b;
      MergeAllConcat(a[1..], b);
      MergeIsAssociative(a[0], MergeAll(a[1..]), MergeAll(b));
    }
  }

  /** The value draws on these literals, and on what these names hold. */
  ghost predicate Draws(value: Sources, texts: set<string>, names: set<string>, env: Env) {
    Flat(value) && value.literals == texts + Drawn(LiteralsOf(env), names)
  }

  lemma DrawsBoth(a: Sources, b: Sources, t: set<string>, u: set<string>, m: set<string>, n: set<string>, env: Env)
    requires Draws(a, t, m, env) && Draws(b, u, n, env)
    ensures Draws(Merge(a, b), t + u, m + n, env)
  {
    MergeFlat(a, b);
  }

  lemma DrawnOne(env: Literals<string>, x: string)
    ensures Drawn(env, {x}) == At(env, x)
  {
    forall a ensures a in Drawn(env, {x}) <==> a in At(env, x) {
      if x in env && a in env[x] {
        assert x in {x};
      }
    }
  }

  lemma {:induction false} ExpressionDraws(p: Program, e: Expr, s: State)
    requires WalrusFree(e) && FlatEnv(s.env)
    ensures Draws(Expression(p, e, s, false, {}).value, Texts(e), Names(e), s.env)
    decreases e
  {
    match e {
      case Attribute(value, _) =>
        ExpressionDraws(p, value, s);
      case Call(callee, arguments, keywords) =>
        CallDraws(p, e, s);
      case Elements(elements) =>
        ListDraws(p, elements, s);
      case Compound(children) =>
        ListDraws(p, children, s);
      case Name(id) =>
        DrawnOne(LiteralsOf(s.env), id);
      case _ =>
    }
  }

  lemma {:induction false} CallDraws(p: Program, e: Expr, s: State)
    requires e.Call? && WalrusFree(e) && FlatEnv(s.env)
    ensures Draws(Expression(p, e, s, false, {}).value, Texts(e), Names(e), s.env)
    decreases e, 0
  {
    var callee := e.callee;
    assert WalrusFree(callee);
    var receiver := if callee.Attribute? then Expression(p, callee.value, s, false, {}) else Outcome(NOTHING, s, NOTHING);
    if callee.Attribute? {
      ExpressionDraws(p, callee.value, s);
    }
    var texts, names := if callee.Attribute? then Texts(callee.value) else {}, if callee.Attribute? then Names(callee.value) else {};
    assert Draws(receiver.value, texts, names, s.env);
    ListDraws(p, e.arguments, s);
    KeywordsDraw(p, e.keywords, s);
    var args := List(p, e.arguments, s, false, {}).value;
    var named := ValuesOf(Keywords(p, e.keywords, s, false, {}).value);
    MergeAllConcat([receiver.value] + args, named);
    MergeAllConcat([receiver.value], args);
    MergeNothing(receiver.value);
    assert MergeAll([receiver.value]) == receiver.value;
    DrawsBoth(receiver.value, MergeAll(args), texts, ListTexts(e.arguments), names, ListNames(e.arguments), s.env);
    DrawsBoth(Merge(receiver.value, MergeAll(args)), MergeAll(named), texts + ListTexts(e.arguments), KeywordTexts(e.keywords),
              names + ListNames(e.arguments), KeywordNames(e.keywords), s.env);
  }

  lemma {:induction false} ListDraws(p: Program, es: seq<Expr>, s: State)
    requires (forall e :: e in es ==> WalrusFree(e)) && FlatEnv(s.env)
    ensures Draws(MergeAll(List(p, es, s, false, {}).value), ListTexts(es), ListNames(es), s.env)
    decreases es
  {
    if es != [] {
      ExpressionDraws(p, es[0], s);
      ListDraws(p, es[1..], s);
      var a, b := Expression(p, es[0], s, false, {}).value, List(p, es[1..], s, false, {}).value;
      assert ([a] + b)[1..] == b;
      DrawsBoth(a, MergeAll(b), Texts(es[0]), ListTexts(es[1..]), Names(es[0]), ListNames(es[1..]), s.env);
    }
  }

  lemma {:induction false} KeywordsNamed(p: Program, ks: seq<Keyword>, s: State, name: string)
    ensures Find(Keywords(p, ks, s, false, {}).value, name).None? <==> forall k :: k in ks ==> k.name != Some(name)
    decreases |ks|
  {
    if ks != [] {
      assert ks == [ks[0]] + ks[1..];
      if ks[0].name.None? {
        KeywordsNamed(p, ks[1..], s, name);
      } else {
        var first := Expression(p, ks[0].value, s, false, {});
        KeywordsNamed(p, ks[1..], first.state, name);
        var rest := Keywords(p, ks[1..], first.state, false, {}).value;
        assert Keywords(p, ks, s, false, {}).value == [(ks[0].name.value, first.value)] + rest;
        assert ([(ks[0].name.value, first.value)] + rest)[1..] == rest;
      }
    }
  }

  lemma {:induction false} KeywordsDraw(p: Program, ks: seq<Keyword>, s: State)
    requires (forall k :: k in ks ==> WalrusFree(k.value)) && FlatEnv(s.env)
    ensures Draws(MergeAll(ValuesOf(Keywords(p, ks, s, false, {}).value)), KeywordTexts(ks), KeywordNames(ks), s.env)
    decreases ks
  {
    if ks != [] {
      KeywordsDraw(p, ks[1..], s);
      var k := ks[0];
      if k.name.Some? {
        assert k.value < k;
        ExpressionDraws(p, k.value, s);
        KeywordsNamed(p, ks[1..], s, k.name.value);
        var rest := Keywords(p, ks[1..], s, false, {}).value;
        var a := Expression(p, k.value, s, false, {}).value;
        var all := [(k.name.value, a)] + rest;
        assert Keywords(p, ks, s, false, {}).value == all;
        assert all[1..] == rest;
        if Counts(ks) {
          assert ValuesOf(all) == [a] + ValuesOf(rest);
          assert ([a] + ValuesOf(rest))[1..] == ValuesOf(rest);
          DrawsBoth(a, MergeAll(ValuesOf(rest)), Texts(k.value), KeywordTexts(ks[1..]), Names(k.value), KeywordNames(ks[1..]), s.env);
        } else {
          assert ValuesOf(all) == ValuesOf(rest);
        }
      }
    }
  }

  // One assignment fires its rule; one pass fires them all.

  lemma GiveTwice(env: Literals<string>, a: set<string>, b: set<string>, literals: set<string>)
    ensures Give(Give(env, a, literals), b, literals) == Give(env, a + b, literals)
  {
  }

  lemma GiveOne(env: Env, id: string, value: Sources)
    requires FlatEnv(env) && Flat(value)
    ensures var after := env[id := Merge(Look(env, id), value)];
            FlatEnv(after) && LiteralsOf(after) == Give(LiteralsOf(env), {id}, value.literals)
  {
    MergeFlat(Look(env, id), value);
  }

  lemma {:induction false} AssignGives(target: Expr, value: Sources, env: Env)
    requires FlatEnv(env) && Flat(value)
    ensures FlatEnv(AssignTo(target, value, env))
    ensures LiteralsOf(AssignTo(target, value, env)) == Give(LiteralsOf(env), Targets(target), value.literals)
    decreases target
  {
    match target {
      case Name(id) =>
        GiveOne(env, id, value);
      case Elements(elements) =>
        AssignEachGives(elements, value, env);
      case _ =>
    }
  }

  lemma {:induction false} AssignEachGives(targets: seq<Expr>, value: Sources, env: Env)
    requires FlatEnv(env) && Flat(value)
    ensures FlatEnv(AssignEach(targets, value, env))
    ensures LiteralsOf(AssignEach(targets, value, env)) == Give(LiteralsOf(env), AllTargets(targets), value.literals)
    decreases targets
  {
    if targets != [] {
      AssignGives(targets[0], value, env);
      AssignEachGives(targets[1..], value, AssignTo(targets[0], value, env));
      GiveTwice(LiteralsOf(env), Targets(targets[0]), AllTargets(targets[1..]), value.literals);
    }
  }

  ghost predicate WalrusFreeAssignments(assignments: seq<Assignment>) {
    forall a :: a in assignments ==> WalrusFree(a.value)
  }

  lemma {:induction false} AssignAllIsPass(p: Program, assignments: seq<Assignment>, env: Env)
    requires WalrusFreeAssignments(assignments) && FlatEnv(env)
    ensures FlatEnv(AssignAll(p, assignments, env).env)
    ensures LiteralsOf(AssignAll(p, assignments, env).env) == Pass(LiteralsOf(env), RulesOf(assignments))
    decreases |assignments|
  {
    if assignments != [] {
      var first := assignments[0];
      var s := State(env, env);
      ExpressionDraws(p, first.value, s);
      var value := Expression(p, first.value, s, false, {}).value;
      AssignEachGives(first.targets, value, env);
      var next := AssignEach(first.targets, value, env);
      assert LiteralsOf(next) == Fire(LiteralsOf(env), RuleOf(first));
      AssignAllIsPass(p, assignments[1..], next);
      assert RulesOf(assignments)[1..] == RulesOf(assignments[1..]);
    }
  }

  lemma FlatByLiterals(a: Env, b: Env)
    requires FlatEnv(a) && FlatEnv(b) && LiteralsOf(a) == LiteralsOf(b)
    ensures a == b
  {
    assert a.Keys == LiteralsOf(a).Keys == b.Keys;
    forall x | x in a.Keys ensures a[x] == b[x] {
      assert LiteralsOf(a)[x] == LiteralsOf(b)[x];
    }
  }

  lemma {:induction false} FixedStays(rules: seq<Rule<string>>, j: nat, k: nat)
    requires j <= k && Pass(Passes(rules, j), rules) == Passes(rules, j)
    ensures Passes(rules, k) == Passes(rules, j)
    decreases k
  {
    if j < k {
      FixedStays(rules, j, k - 1);
    }
  }

  /** The variables are those after `j` passes of the rules. */
  ghost predicate Ran(p: Program, env: Env, j: nat) {
    FlatEnv(env) && LiteralsOf(env) == Passes(RulesOf(p.assignments), j)
  }

  lemma RanOnce(p: Program, env: Env, j: nat)
    requires WalrusFreeAssignments(p.assignments) && Ran(p, env, j)
    ensures Ran(p, AssignAll(p, p.assignments, env).env, j + 1)
  {
    AssignAllIsPass(p, p.assignments, env);
  }

  lemma RanToTheEnd(p: Program, env: Env, j: nat)
    requires Ran(p, env, j) && (if j <= |p.assignments| then Ran(p, env, j + 1) else j == |p.assignments| + 1)
    ensures Ran(p, env, |p.assignments|)
  {
    var rules := RulesOf(p.assignments);
    if j <= |rules| {
      FixedStays(rules, j, |rules|);
    } else {
      PassesConverge(rules);
    }
  }

  lemma {:induction false} LoadPassesReach(p: Program, env: Env, j: nat, k: nat)
    requires WalrusFreeAssignments(p.assignments) && Ran(p, env, j) && j + k == |p.assignments| + 1
    ensures Ran(p, LoadPasses(p, env, k).env, |p.assignments|)
    decreases k
  {
    hide Ran, AssignAll, WalrusFreeAssignments;
    if k == 0 {
      RanToTheEnd(p, env, j);
    } else {
      RanOnce(p, env, j);
      var next := AssignAll(p, p.assignments, env).env;
      if next == env {
        RanToTheEnd(p, env, j);
      } else {
        LoadPassesReach(p, next, j + 1, k - 1);
      }
    }
  }

  lemma LoadIsPasses(p: Program)
    requires WalrusFreeAssignments(p.assignments)
    ensures FlatEnv(Load(p).env) && LiteralsOf(Load(p).env) == Passes(RulesOf(p.assignments), |p.assignments|)
  {
    assert LiteralsOf(map[]) == map[];
    LoadPassesReach(p, map[], 0, |p.assignments| + 1);
  }

  /** Without walrus expressions the passes always end at a fixed point. */
  lemma LoadConverges(p: Program)
    requires WalrusFreeAssignments(p.assignments)
    ensures AssignAll(p, p.assignments, Load(p).env).env == Load(p).env
  {
    LoadIsPasses(p);
    AssignAllIsPass(p, p.assignments, Load(p).env);
    PassesConverge(RulesOf(p.assignments));
    FlatByLiterals(AssignAll(p, p.assignments, Load(p).env).env, Load(p).env);
  }

  /** A variable of the module holds exactly the literals that a chain of assignments carries to it. */
  lemma LoadIsReachability(p: Program, a: string, x: string)
    requires WalrusFreeAssignments(p.assignments)
    ensures a in Look(Load(p).env, x).literals <==> Reaches(RulesOf(p.assignments), a, x)
  {
    LoadIsPasses(p);
    FixedPointIsReachability(RulesOf(p.assignments), a, x);
    assert x in Load(p).env.Keys <==> x in LiteralsOf(Load(p).env).Keys;
  }

  lemma ReachesBySet(rules: seq<Rule<string>>, others: seq<Rule<string>>, a: string, x: string)
    requires (forall r :: r in rules ==> r in others) && Reaches(rules, a, x)
    ensures Reaches(others, a, x)
  {
    var chain: seq<Rule<string>> :| Chain(chain, rules, a, x);
    assert Chain(chain, others, a, x);
  }

  lemma RulesOfMembers(a: seq<Assignment>, b: seq<Assignment>)
    requires forall x :: x in a ==> x in b
    ensures forall r :: r in RulesOf(a) ==> r in RulesOf(b)
  {
    forall r | r in RulesOf(a) ensures r in RulesOf(b) {
      var i :| 0 <= i < |a| && RulesOf(a)[i] == r;
      assert a[i] in b;
      var j :| 0 <= j < |b| && b[j] == a[i];
      assert RulesOf(b)[j] == r;
    }
  }

  /** The order of the module's assignments does not matter, nor does what depends on what. */
  lemma LoadIsOrderIndependent(p: Program, q: Program, x: string)
    requires WalrusFreeAssignments(p.assignments) && forall a :: a in p.assignments <==> a in q.assignments
    ensures Look(Load(p).env, x) == Look(Load(q).env, x)
  {
    RulesOfMembers(p.assignments, q.assignments);
    RulesOfMembers(q.assignments, p.assignments);
    forall a ensures a in Look(Load(p).env, x).literals <==> a in Look(Load(q).env, x).literals {
      LoadIsReachability(p, a, x);
      LoadIsReachability(q, a, x);
      if Reaches(RulesOf(p.assignments), a, x) {
        ReachesBySet(RulesOf(p.assignments), RulesOf(q.assignments), a, x);
      }
      if Reaches(RulesOf(q.assignments), a, x) {
        ReachesBySet(RulesOf(q.assignments), RulesOf(p.assignments), a, x);
      }
    }
    LoadIsPasses(p);
    LoadIsPasses(q);
    SameSources(Look(Load(p).env, x), Look(Load(q).env, x));
  }

  // With walrus expressions the passes can stop short.

  const SHIFT := Compound([Walrus(Name("a"), Name("b")), Walrus(Name("b"), Name("t")), Text("x")])

  const X := Sources({"x"}, {}, map[])

  lemma ListCons(p: Program, e: Expr, es: seq<Expr>, s: State)
    ensures var first := Expression(p, e, s, false, {});
            var rest := List(p, es, first.state, false, {});
            var r := List(p, [e] + es, s, false, {});
            r.value == [first.value] + rest.value && r.state == rest.state && (es == [] ==> rest.value == [] && rest.state == first.state)
  {
    hide Expression, Merge;
    assert ([e] + es)[1..] == es;
  }

  lemma MergeCons(a: Sources, rest: seq<Sources>)
    requires Flat(a) && Flat(MergeAll(rest))
    ensures Flat(MergeAll([a] + rest)) && MergeAll([a] + rest).literals == a.literals + MergeAll(rest).literals
  {
    assert ([a] + rest)[1..] == rest;
    MergeFlat(a, MergeAll(rest));
  }

  lemma WalrusMoves(p: Program, target: string, source: string, s: State)
    ensures var r := Expression(p, Walrus(Name(target), Name(source)), s, false, {});
            r.value == Look(s.env, source) && r.state == s.(env := s.env[target := Merge(Look(s.env, target), Look(s.env, source))])
  {
    hide Merge;
    assert Expression(p, Name(source), s, false, {}).value == Look(s.env, source);
  }

  lemma TextValue(p: Program, text: string, s: State)
    ensures Expression(p, Text(text), s, false, {}) == Outcome(Sources({text}, {}, map[]), s, NOTHING)
  {
    hide Merge;
  }

  lemma CompoundValue(p: Program, es: seq<Expr>, s: State)
    ensures var r := Expression(p, Compound(es), s, false, {});
            var all := List(p, es, s, false, {});
            r.value == MergeAll(all.value) && r.state == all.state
  {
    hide Merge, MergeAll, List;
  }

  lemma ThreeValues(b: Sources, t: Sources)
    requires Flat(b) && Flat(t)
    ensures Flat(MergeAll([b, t, X])) && MergeAll([b, t, X]).literals == b.literals + t.literals + {"x"}
  {
    MergeCons(X, []);
    MergeCons(t, [X]);
    MergeCons(b, [t, X]);
    assert [b] + [t, X] == [b, t, X] && [t] + [X] == [t, X] && [X] + [] == [X];
  }

  lemma ListOfThree(p: Program, x: Expr, y: Expr, z: Expr, s: State, s1: State, s2: State)
    requires Expression(p, x, s, false, {}).state == s1 && Expression(p, y, s1, false, {}).state == s2
    ensures var values := [Expression(p, x, s, false, {}).value, Expression(p, y, s1, false, {}).value, Expression(p, z, s2, false, {}).value];
            List(p, [x, y, z], s, false, {}).value == values
    ensures List(p, [x, y, z], s, false, {}).state == Expression(p, z, s2, false, {}).state
  {
    hide Expression, Merge, List;
    ListCons(p, z, [], s2);
    ListCons(p, y, [z], s1);
    ListCons(p, x, [y, z], s);
    assert [x] + [y, z] == [x, y, z] && [y] + [z] == [y, z] && [z] + [] == [z];
  }

  lemma ShiftValue(p: Program, s: State)
    requires FlatEnv(s.env)
    ensures var a, b, t := Look(s.env, "a"), Look(s.env, "b"), Look(s.env, "t");
            var r := Expression(p, SHIFT, s, false, {});
            && Flat(r.value) && r.value.literals == b.literals + t.literals + {"x"}
            && r.state.env == s.env["a" := Merge(a, b)]["b" := Merge(b, t)]
  {
    var a, b, t := Look(s.env, "a"), Look(s.env, "b"), Look(s.env, "t");
    var x, y, z := Walrus(Name("a"), Name("b")), Walrus(Name("b"), Name("t")), Text("x");
    var s1 := s.(env := s.env["a" := Merge(a, b)]);
    var s2 := s.(env := s1.env["b" := Merge(b, t)]);
    assert "a" != "b" && "a" != "t" && "b" != "t";
    assert Flat(b) && Flat(t);
    hide Expression, Merge, MergeAll, List, FlatEnv, Flat;
    WalrusMoves(p, "a", "b", s);
    WalrusMoves(p, "b", "t", s1);
    TextValue(p, "x", s2);
    CompoundValue(p, [x, y, z], s);
    ListOfThree(p, x, y, z, s, s1, s2);
    ThreeValues(b, t);
  }

  /** One pass moves what `b` holds to `a`, what `t` holds to `b`, and everything to `t`. */
  lemma ShiftOnce(p: Program, env: Env)
    requires p.assignments == [Assignment([Name("t")], SHIFT)] && FlatEnv(env)
    ensures var a, b, t := Look(env, "a").literals, Look(env, "b").literals, Look(env, "t").literals;
            var after := AssignAll(p, p.assignments, env).env;
            && FlatEnv(after) && after.Keys == env.Keys + {"a", "b", "t"}
            && after["a"].literals == a + b && after["b"].literals == b + t && after["t"].literals == t + b + {"x"}
  {
    hide Expression, AssignAll, Merge, SHIFT;
    var a, b, t := Look(env, "a"), Look(env, "b"), Look(env, "t");
    var r := Expression(p, SHIFT, State(env, env), false, {});
    ShiftValue(p, State(env, env));
    MergeFlat(a, b);
    MergeFlat(b, t);
    MergeFlat(t, r.value);
    ShiftAssigns(p, env, r);
  }

  lemma ShiftAssigns(p: Program, env: Env, r: Outcome<Sources>)
    requires p.assignments == [Assignment([Name("t")], SHIFT)] && r == Expression(p, SHIFT, State(env, env), false, {})
    ensures AssignAll(p, p.assignments, env).env == r.state.env["t" := Merge(Look(r.state.env, "t"), r.value)]
  {
    hide Expression, Merge;
    assert [Name("t")][1..] == [];
    assert p.assignments[1..] == [];
    var after := AssignTo(Name("t"), r.value, r.state.env);
    assert AssignEach([Name("t")], r.value, r.state.env) == AssignEach([], r.value, after) == after;
    assert AssignAll(p, [], after).env == after;
  }

  lemma TwoPasses(p: Program, env: Env)
    requires var next := AssignAll(p, p.assignments, env).env;
             next != env && AssignAll(p, p.assignments, next).env != next
    ensures LoadPasses(p, env, 2).env == AssignAll(p, p.assignments, AssignAll(p, p.assignments, env).env).env
  {
    hide AssignAll;
    var next := AssignAll(p, p.assignments, env).env;
    assert LoadPasses(p, AssignAll(p, p.assignments, next).env, 0).env == AssignAll(p, p.assignments, next).env;
    assert LoadPasses(p, next, 1).env == AssignAll(p, p.assignments, next).env;
  }

  /** Here one assignment needs three passes to settle, but only two are made. */
  lemma WalrusStopsShort(p: Program)
    requires p.assignments == [Assignment([Name("t")], SHIFT)]
    ensures Load(p).env != AssignAll(p, p.assignments, Load(p).env).env
  {
    hide AssignAll, SHIFT;
    var none: Env := map[];
    ShiftOnce(p, none);
    var first := AssignAll(p, p.assignments, none).env;
    ShiftOnce(p, first);
    var second := AssignAll(p, p.assignments, first).env;
    ShiftOnce(p, second);
    assert first["b"].literals == {} && "x" in second["b"].literals;
    assert second["a"].literals == {} && "x" in AssignAll(p, p.assignments, second).env["a"].literals;
    TwoPasses(p, none);
  }
}
