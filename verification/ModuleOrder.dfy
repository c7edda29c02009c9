/**
 * The module's assignments with walrus expressions, taken apart in the order
 * of evaluation: exactly when the repeated passes over them are enough.
 */
module ModuleOrder {
  import opened Wrappers
  import opened Provenance
  import opened ProducerSyntax
  import opened ProducerAnalysis
  import opened ModuleRules
  import opened RuleOrder
  import opened ModuleSources

  /** A variable of the module, or a value under evaluation. */
  datatype Place = Named(name: string) | Held(slot: nat)

  /** Rules in the order of evaluation, and the next slot not in use. */
  datatype Code = Code(rules: seq<Rule<Place>>, next: nat)

  function NamedAll(names: set<string>): set<Place> {
    set x | x in names :: Named(x)
  }

  // ---- Taking an expression apart --------------------------------------------------------

  /** Evaluating `e` adds its literals to `slot`; slots from `free` on are for what it assigns. */
  function CodeOf(e: Expr, slot: nat, free: nat): Code {
    match e
    case Text(text) => Code([Rule({text}, {}, {Held(slot)})], free)
    case Name(id) => Code([Rule({}, {Named(id)}, {Held(slot)})], free)
    case Attribute(value, _) => CodeOf(value, slot, free)
    case Call(callee, arguments, keywords) =>
      var receiver := if callee.Attribute? then CodeOf(callee.value, slot, free) else Code([], free);
      var args := ListCode(arguments, slot, receiver.next);
      var named := KeywordCode(keywords, slot, args.next);
      Code(receiver.rules + args.rules + named.rules, named.next)
    case Walrus(target, value) =>
      var inner := CodeOf(value, free, free + 1);
      Code(inner.rules + [Rule({}, {Held(free)}, NamedAll(Targets(target)) + {Held(slot)})], inner.next)
    case Elements(elements) => ListCode(elements, slot, free)
    case Compound(children) => ListCode(children, slot, free)
    case Empty => Code([], free)
  }

  function ListCode(es: seq<Expr>, slot: nat, free: nat): Code {
    if es == [] then Code([], free)
    else
      var first := CodeOf(es[0], slot, free);
      var rest := ListCode(es[1..], slot, first.next);
      Code(first.rules + rest.rules, rest.next)
  }

  /** A keyword that a later one replaces is evaluated, but its value is dropped. */
  function FirstKeyword(ks: seq<Keyword>, slot: nat, free: nat): Code
    requires ks != []
    decreases ks, 0
  {
    var k := ks[0];
    assert k.value < k;
    if k.name.None? then Code([], free)
    else if Counts(ks) then CodeOf(k.value, slot, free)
    else CodeOf(k.value, free, free + 1)
  }

  function KeywordCode(ks: seq<Keyword>, slot: nat, free: nat): Code
    decreases ks, 1
  {
    if ks == [] then Code([], free)
    else
      var first := FirstKeyword(ks, slot, free);
      var rest := KeywordCode(ks[1..], slot, first.next);
      Code(first.rules + rest.rules, rest.next)
  }

  function AssignmentsCode(assignments: seq<Assignment>, free: nat): Code
    decreases |assignments|
  {
    if assignments == [] then Code([], free)
    else
      var first := AssignmentCode(assignments[0], free);
      var rest := AssignmentsCode(assignments[1..], first.next);
      Code(first.rules + rest.rules, rest.next)
  }

  // ---- Which slots the rules use ---------------------------------------------------------------

  /** Only `slot` and slots in [free, next) are used. */
  ghost predicate Uses(rules: seq<Rule<Place>>, slot: nat, free: nat, next: nat) {
    forall r, j: nat :: r in rules && (Held(j) in r.names || Held(j) in r.targets) ==> j == slot || free <= j < next
  }

  /** Only slots in [free, next) are read. */
  ghost predicate ReadsOnly(rules: seq<Rule<Place>>, free: nat, next: nat) {
    forall r, j: nat :: r in rules && Held(j) in r.names ==> free <= j < next
  }

  ghost predicate Tidy(c: Code, slot: nat, free: nat) {
    free <= c.next && Uses(c.rules, slot, free, c.next) && ReadsOnly(c.rules, free, c.next)
  }

  lemma TidyTwice(a: Code, b: Code, slot: nat, free: nat)
    requires Tidy(a, slot, free) && Tidy(b, slot, a.next)
    ensures Tidy(Code(a.rules + b.rules, b.next), slot, free)
  {
  }

  lemma NothingIsTidy(slot: nat, free: nat)
    ensures Tidy(Code([], free), slot, free)
  {
  }

  // ---- What the rules do, started where no slot holds anything new ---------------------------------

  /** The rules and the variables hold the same. */
  ghost predicate Agrees(env: Env, n: Literals<Place>) {
    && FlatEnv(env)
    && (forall x :: x in env.Keys <==> Named(x) in n)
    && (forall x :: x in env.Keys ==> env[x].literals == n[Named(x)])
  }

  /** Whatever a rule reads from a slot, it has passed on already. */
  ghost predicate Spent(n: Literals<Place>, rules: seq<Rule<Place>>) {
    forall r, j: nat, t :: r in rules && Held(j) in r.names && t in r.targets ==> At(n, Held(j)) <= At(n, t)
  }

  ghost predicate Unchanged(n: Literals<Place>, n': Literals<Place>, free: nat, next: nat) {
    forall j: nat :: free <= j < next ==> At(n', Held(j)) == At(n, Held(j))
  }

  lemma SpentAcross(n: Literals<Place>, n': Literals<Place>, rules: seq<Rule<Place>>, free: nat, next: nat)
    requires Spent(n, rules) && ReadsOnly(rules, free, next) && Grown(n, n') && Unchanged(n, n', free, next)
    ensures Spent(n', rules)
  {
    forall r, j: nat, t | r in rules && Held(j) in r.names && t in r.targets ensures At(n', Held(j)) <= At(n', t) {
      assert At(n, Held(j)) <= At(n, t) <= At(n', t);
    }
  }

  lemma {:induction false} PassConcat(n: Literals<Place>, a: seq<Rule<Place>>, b: seq<Rule<Place>>)
    ensures Pass(n, a + b) == Pass(Pass(n, a), b)
    decreases |a|
  {
    if a == [] {
      assert a + b == b;
    } else {
      assert (a + b)[0] == a[0] && (a + b)[1..] == a[1..] + b;
      PassConcat(Fire(n, a[0]), a[1..], b);
    }
  }

  lemma {:induction false} SlotsOutside(n: Literals<Place>, rules: seq<Rule<Place>>, slot: nat, free: nat, next: nat, j: nat)
    requires Uses(rules, slot, free, next) && j != slot && !(free <= j < next)
    ensures At(Pass(n, rules), Held(j)) == At(n, Held(j))
    decreases |rules|
  {
    if rules != [] {
      assert rules[0] in rules;
      assert Held(j) !in rules[0].targets;
      SlotsOutside(Fire(n, rules[0]), rules[1..], slot, free, next, j);
    }
  }

  /** What running the code of a value, found in variables `env` and left in `env'`, has to do. */
  ghost predicate Runs(c: Code, slot: nat, free: nat, n: Literals<Place>, value: Sources, env': Env) {
    var n' := Pass(n, c.rules);
    && Tidy(c, slot, free) && Flat(value) && Agrees(env', n') && Spent(n', c.rules)
    && At(n', Held(slot)) == At(n, Held(slot)) + value.literals
  }

  ghost predicate Starts(c: Code, env: Env, n: Literals<Place>) {
    Agrees(env, n) && Spent(n, c.rules)
  }

  lemma SpentParts(n: Literals<Place>, a: seq<Rule<Place>>, b: seq<Rule<Place>>)
    ensures Spent(n, a + b) <==> Spent(n, a) && Spent(n, b)
  {
    assert forall r :: r in a + b <==> r in a || r in b;
  }

  /** After the first part has run, the second may. */
  lemma FirstPart(a: Code, b: Code, slot: nat, free: nat, n: Literals<Place>, value: Sources, env': Env)
    requires slot < free && Runs(a, slot, free, n, value, env') && Spent(n, b.rules) && Tidy(b, slot, a.next)
    ensures Starts(b, env', Pass(n, a.rules))
  {
    var n' := Pass(n, a.rules);
    PassGrows(n, a.rules);
    forall j: nat | a.next <= j < b.next ensures At(n', Held(j)) == At(n, Held(j)) {
      SlotsOutside(n, a.rules, slot, free, a.next, j);
    }
    SpentAcross(n, n', b.rules, a.next, b.next);
  }

  /** One part after the other. */
  lemma BothParts(a: Code, b: Code, slot: nat, free: nat, n: Literals<Place>, u: Sources, mid: Env, v: Sources, env': Env, both: Sources)
    requires slot < free && Runs(a, slot, free, n, u, mid) && Runs(b, slot, a.next, Pass(n, a.rules), v, env')
    requires Flat(both) && both.literals == u.literals + v.literals
    ensures Runs(Code(a.rules + b.rules, b.next), slot, free, n, both, env')
  {
    var m := Pass(n, a.rules);
    var n' := Pass(m, b.rules);
    PassConcat(n, a.rules, b.rules);
    TidyTwice(a, b, slot, free);
    PassGrows(m, b.rules);
    forall j: nat | free <= j < a.next ensures At(n', Held(j)) == At(m, Held(j)) {
      SlotsOutside(m, b.rules, slot, a.next, b.next, j);
    }
    SpentAcross(m, n', a.rules, free, a.next);
    SpentParts(n', a.rules, b.rules);
  }

  lemma NothingRuns(slot: nat, free: nat, n: Literals<Place>, env: Env)
    requires Agrees(env, n)
    ensures Runs(Code([], free), slot, free, n, NOTHING, env)
  {
    NothingIsTidy(slot, free);
  }

  lemma TextRuns(text: string, slot: nat, free: nat, n: Literals<Place>, env: Env)
    requires Agrees(env, n)
    ensures Runs(Code([Rule({text}, {}, {Held(slot)})], free), slot, free, n, Sources({text}, {}, map[]), env)
  {
    var r: Rule<Place> := Rule({text}, {}, {Held(slot)});
    assert [r][1..] == [] && Pass(n, [r]) == Fire(n, r);
    assert Drawn(n, r.names) == {};
  }

  lemma DrawnPlace(n: Literals<Place>, x: Place)
    ensures Drawn(n, {x}) == At(n, x)
  {
    forall a ensures a in Drawn(n, {x}) <==> a in At(n, x) {
      if x in n && a in n[x] {
        assert x in {x};
      }
    }
  }

  lemma NameRuns(id: string, slot: nat, free: nat, n: Literals<Place>, env: Env)
    requires Agrees(env, n)
    ensures Runs(Code([Rule({}, {Named(id)}, {Held(slot)})], free), slot, free, n, Look(env, id), env)
  {
    var r: Rule<Place> := Rule({}, {Named(id)}, {Held(slot)});
    assert [r][1..] == [] && Pass(n, [r]) == Fire(n, r);
    DrawnPlace(n, Named(id));
    assert At(n, Named(id)) == Look(env, id).literals;
  }

  // ---- Handing a value over to the variables it is assigned to -----------------------------------------

  lemma HandsOver(n: Literals<Place>, m: Literals<Place>, rule: Rule<Place>, f: nat, literals: set<string>, t: Place)
    requires rule.texts == {} && rule.names == {Held(f)} && Grown(n, m) && Spent(n, [rule])
    requires At(m, Held(f)) == At(n, Held(f)) + literals
    ensures At(Fire(m, rule), t) == if t in rule.targets then At(m, t) + literals else At(m, t)
    ensures t in Fire(m, rule) <==> t in m || t in rule.targets
  {
    DrawnPlace(m, Held(f));
    if t in rule.targets {
      assert rule in [rule];
      assert At(n, Held(f)) <= At(n, t) <= At(m, t);
    }
  }

  lemma HandedOverAgrees(n: Literals<Place>, m: Literals<Place>, rule: Rule<Place>, f: nat, names: set<string>, extra: set<Place>,
                         mid: Env, env': Env, literals: set<string>)
    requires rule == Rule({}, {Held(f)}, NamedAll(names) + extra) && (forall t :: t in extra ==> t.Held?)
    requires Grown(n, m) && Spent(n, [rule]) && At(m, Held(f)) == At(n, Held(f)) + literals
    requires Agrees(mid, m) && FlatEnv(env') && LiteralsOf(env') == Give(LiteralsOf(mid), names, literals)
    ensures Agrees(env', Fire(m, rule))
  {
    var n' := Fire(m, rule);
    forall x ensures x in env'.Keys <==> Named(x) in n' {
      HandsOver(n, m, rule, f, literals, Named(x));
      assert x in env'.Keys <==> x in LiteralsOf(env');
      assert Named(x) in NamedAll(names) <==> x in names;
    }
    forall x | x in env'.Keys ensures env'[x].literals == n'[Named(x)] {
      HandsOver(n, m, rule, f, literals, Named(x));
      assert env'[x].literals == LiteralsOf(env')[x];
      assert At(n', Named(x)) == n'[Named(x)];
      assert At(LiteralsOf(mid), x) == At(m, Named(x));
      assert Named(x) in rule.targets <==> x in names;
    }
  }

  /** After `inner` has left a value in slot `f`, the rule hands it over. */
  lemma HandingOverRuns(inner: Code, f: nat, n: Literals<Place>, v: Sources, mid: Env, names: set<string>, extra: set<Place>, env': Env)
    requires Runs(inner, f, f + 1, n, v, mid) && (forall t :: t in extra ==> t.Held? && t.slot < f)
    requires Spent(n, [Rule({}, {Held(f)}, NamedAll(names) + extra)])
    requires FlatEnv(env') && LiteralsOf(env') == Give(LiteralsOf(mid), names, v.literals)
    ensures var rule := Rule({}, {Held(f)}, NamedAll(names) + extra);
            var n' := Pass(n, inner.rules + [rule]);
            && Agrees(env', n') && Spent(n', inner.rules + [rule])
            && (forall t :: t in extra ==> At(n', t) == At(n, t) + v.literals)
  {
    var rule := Rule({}, {Held(f)}, NamedAll(names) + extra);
    var m := Pass(n, inner.rules);
    var n' := Fire(m, rule);
    PassConcat(n, inner.rules, [rule]);
    assert [rule][1..] == [] && Pass(m, [rule]) == n';
    PassGrows(n, inner.rules);
    HandedOverAgrees(n, m, rule, f, names, extra, mid, env', v.literals);
    HandedOverIsSpent(inner, f, n, m, rule, v.literals);
    forall t | t in extra ensures At(n', t) == At(n, t) + v.literals {
      HandsOver(n, m, rule, f, v.literals, t);
      SlotsOutside(n, inner.rules, f, f + 1, inner.next, t.slot);
    }
  }

  lemma HandedOverIsSpent(inner: Code, f: nat, n: Literals<Place>, m: Literals<Place>, rule: Rule<Place>, literals: set<string>)
    requires Tidy(inner, f, f + 1) && Spent(m, inner.rules) && Spent(n, [rule]) && Grown(n, m)
    requires rule.texts == {} && rule.names == {Held(f)} && (forall j: nat :: Held(j) in rule.targets ==> j < f)
    requires At(m, Held(f)) == At(n, Held(f)) + literals
    ensures Spent(Fire(m, rule), inner.rules + [rule])
  {
    var n' := Fire(m, rule);
    FireGrows(m, rule);
    forall t ensures At(n', t) == if t in rule.targets then At(m, t) + literals else At(m, t) {
      HandsOver(n, m, rule, f, literals, t);
    }
    hide Fire, Grown;
    SpentAcross(m, n', inner.rules, f + 1, inner.next);
    forall t | t in rule.targets ensures At(n', Held(f)) <= At(n', t) {
      assert rule in [rule];
      assert At(n, Held(f)) <= At(n, t) by {
        assert Held(f) in rule.names;
      }
      assert At(n, t) <= At(m, t) by {
        GrownAt(n, m, t);
      }
    }
    assert Spent(n', [rule]);
    SpentParts(n', inner.rules, [rule]);
  }

  lemma GrownAt(n: Literals<Place>, m: Literals<Place>, t: Place)
    requires Grown(n, m)
    ensures At(n, t) <= At(m, t)
  {
  }

  lemma WalrusRuns(target: Expr, inner: Code, slot: nat, f: nat, n: Literals<Place>, v: Sources, mid: Env)
    requires slot < f && Runs(inner, f, f + 1, n, v, mid)
    requires Spent(n, inner.rules + [Rule({}, {Held(f)}, NamedAll(Targets(target)) + {Held(slot)})])
    ensures Runs(Code(inner.rules + [Rule({}, {Held(f)}, NamedAll(Targets(target)) + {Held(slot)})], inner.next), slot, f, n, v,
                 AssignTo(target, v, mid))
  {
    var rule := Rule({}, {Held(f)}, NamedAll(Targets(target)) + {Held(slot)});
    SpentParts(n, inner.rules, [rule]);
    AssignGives(target, v, mid);
    HandingOverRuns(inner, f, n, v, mid, Targets(target), {Held(slot)}, AssignTo(target, v, mid));
    assert forall r :: r in inner.rules + [rule] <==> r in inner.rules || r == rule;
    assert forall j: nat :: Held(j) in rule.targets <==> j == slot;
  }

  // ---- Evaluation is running the code --------------------------------------------------------------------

  lemma {:induction false} ExpressionRuns(p: Program, e: Expr, s: State, slot: nat, free: nat, n: Literals<Place>)
    requires slot < free && Starts(CodeOf(e, slot, free), s.env, n)
    ensures var r := Expression(p, e, s, false, {}); Runs(CodeOf(e, slot, free), slot, free, n, r.value, r.state.env)
    decreases e, 1
  {
    hide Runs, Merge, MergeAll, Spent, Agrees;
    match e {
      case Empty =>
        NothingRuns(slot, free, n, s.env);
      case Text(text) =>
        TextRuns(text, slot, free, n, s.env);
      case Name(id) =>
        NameRuns(id, slot, free, n, s.env);
      case Attribute(value, attr) =>
        ExpressionRuns(p, value, s, slot, free, n);
        AttributeOfFlat(CodeOf(value, slot, free), slot, free, n, Expression(p, value, s, false, {}), attr);
      case Call(_, _, _) =>
        CallRuns(p, e, s, slot, free, n);
      case Walrus(target, value) =>
        var inner := CodeOf(value, free, free + 1);
        SpentParts(n, inner.rules, [Rule({}, {Held(free)}, NamedAll(Targets(target)) + {Held(slot)})]);
        ExpressionRuns(p, value, s, free, free + 1, n);
        var r := Expression(p, value, s, false, {});
        WalrusRuns(target, inner, slot, free, n, r.value, r.state.env);
      case Elements(elements) =>
        ListRuns(p, elements, s, slot, free, n);
      case Compound(children) =>
        ListRuns(p, children, s, slot, free, n);
    }
  }

  lemma AttributeOfFlat(c: Code, slot: nat, free: nat, n: Literals<Place>, r: Outcome<Sources>, attr: string)
    requires Runs(c, slot, free, n, r.value, r.state.env)
    ensures Runs(c, slot, free, n, Provenance.Attribute(r.value, attr), r.state.env)
  {
    assert Provenance.Attribute(r.value, attr) == r.value;
  }

  lemma {:induction false} ListRuns(p: Program, es: seq<Expr>, s: State, slot: nat, free: nat, n: Literals<Place>)
    requires slot < free && Starts(ListCode(es, slot, free), s.env, n)
    ensures var r := List(p, es, s, false, {}); Runs(ListCode(es, slot, free), slot, free, n, MergeAll(r.value), r.state.env)
    decreases es
  {
    hide Runs, Merge, Spent, Agrees, Tidy;
    if es == [] {
      NothingRuns(slot, free, n, s.env);
    } else {
      var a := CodeOf(es[0], slot, free);
      var b := ListCode(es[1..], slot, a.next);
      SpentParts(n, a.rules, b.rules);
      ExpressionRuns(p, es[0], s, slot, free, n);
      var first := Expression(p, es[0], s, false, {});
      NextIsLater(a, slot, free, n, first.value, first.state.env);
      ListIsTidy(es[1..], slot, a.next);
      FirstPart(a, b, slot, free, n, first.value, first.state.env);
      ListRuns(p, es[1..], first.state, slot, a.next, Pass(n, a.rules));
      var rest := List(p, es[1..], first.state, false, {});
      assert ([first.value] + rest.value)[1..] == rest.value;
      TwoRun(a, b, slot, free, n, first.value, first.state.env, MergeAll(rest.value), rest.state.env);
    }
  }

  lemma NextIsLater(c: Code, slot: nat, free: nat, n: Literals<Place>, value: Sources, env': Env)
    requires Runs(c, slot, free, n, value, env')
    ensures free <= c.next && Tidy(c, slot, free) && Flat(value)
  {
  }

  lemma TwoRun(a: Code, b: Code, slot: nat, free: nat, n: Literals<Place>, u: Sources, mid: Env, v: Sources, env': Env)
    requires slot < free && Runs(a, slot, free, n, u, mid) && Runs(b, slot, a.next, Pass(n, a.rules), v, env')
    ensures Runs(Code(a.rules + b.rules, b.next), slot, free, n, Merge(u, v), env')
  {
    NextIsLater(a, slot, free, n, u, mid);
    NextIsLater(b, slot, a.next, Pass(n, a.rules), v, env');
    MergeFlat(u, v);
    hide Runs, Merge;
    BothParts(a, b, slot, free, n, u, mid, v, env', Merge(u, v));
  }

  // Tidiness does not depend on what is evaluated.

  lemma {:induction false} CodeIsTidy(e: Expr, slot: nat, free: nat)
    requires slot < free
    ensures Tidy(CodeOf(e, slot, free), slot, free)
    decreases e, 1
  {
    hide Tidy;
    match e {
      case Empty => NothingIsTidy(slot, free);
      case Text(text) => LeafIsTidy(Rule({text}, {}, {Held(slot)}), slot, free);
      case Name(id) => LeafIsTidy(Rule({}, {Named(id)}, {Held(slot)}), slot, free);
      case Attribute(value, _) => CodeIsTidy(value, slot, free);
      case Call(_, _, _) => CallIsTidy(e, slot, free);
      case Walrus(target, value) =>
        CodeIsTidy(value, free, free + 1);
        WalrusIsTidy(CodeOf(value, free, free + 1), target, slot, free);
      case Elements(elements) => ListIsTidy(elements, slot, free);
      case Compound(children) => ListIsTidy(children, slot, free);
    }
  }

  lemma LeafIsTidy(r: Rule<Place>, slot: nat, free: nat)
    requires (forall t :: t in r.names ==> t.Named?) && r.targets == {Held(slot)}
    ensures Tidy(Code([r], free), slot, free)
  {
  }

  lemma WalrusIsTidy(inner: Code, target: Expr, slot: nat, free: nat)
    requires Tidy(inner, free, free + 1) && slot < free
    ensures Tidy(Code(inner.rules + [Rule({}, {Held(free)}, NamedAll(Targets(target)) + {Held(slot)})], inner.next), slot, free)
  {
    var rule := Rule({}, {Held(free)}, NamedAll(Targets(target)) + {Held(slot)});
    assert forall r :: r in inner.rules + [rule] <==> r in inner.rules || r == rule;
    assert forall j: nat :: Held(j) in rule.targets <==> j == slot;
  }

  lemma {:induction false} CallIsTidy(e: Expr, slot: nat, free: nat)
    requires e.Call? && slot < free
    ensures Tidy(CodeOf(e, slot, free), slot, free)
    decreases e, 0
  {
    hide Tidy;
    var receiver := if e.callee.Attribute? then CodeOf(e.callee.value, slot, free) else Code([], free);
    NothingIsTidy(slot, free);
    if e.callee.Attribute? {
      CodeIsTidy(e.callee.value, slot, free);
    }
    TidyIsLater(receiver, slot, free);
    ListIsTidy(e.arguments, slot, receiver.next);
    var args := ListCode(e.arguments, slot, receiver.next);
    TidyIsLater(args, slot, receiver.next);
    KeywordsAreTidy(e.keywords, slot, args.next);
    TidyTwice(receiver, args, slot, free);
    TidyTwice(Code(receiver.rules + args.rules, args.next), KeywordCode(e.keywords, slot, args.next), slot, free);
  }

  lemma TidyIsLater(c: Code, slot: nat, free: nat)
    requires Tidy(c, slot, free)
    ensures free <= c.next
  {
  }

  lemma {:induction false} ListIsTidy(es: seq<Expr>, slot: nat, free: nat)
    requires slot < free
    ensures Tidy(ListCode(es, slot, free), slot, free)
    decreases es
  {
    hide Tidy;
    if es == [] {
      NothingIsTidy(slot, free);
    } else {
      var a := CodeOf(es[0], slot, free);
      CodeIsTidy(es[0], slot, free);
      TidyIsLater(a, slot, free);
      ListIsTidy(es[1..], slot, a.next);
      TidyTwice(a, ListCode(es[1..], slot, a.next), slot, free);
    }
  }

  lemma DroppedIsTidy(c: Code, slot: nat, free: nat)
    requires slot < free && Tidy(c, free, free + 1)
    ensures Tidy(c, slot, free)
  {
  }

  lemma {:induction false} FirstKeywordIsTidy(ks: seq<Keyword>, slot: nat, free: nat)
    requires slot < free && ks != []
    ensures Tidy(FirstKeyword(ks, slot, free), slot, free)
    decreases ks, 0
  {
    hide Tidy;
    var k := ks[0];
    assert k.value < k;
    if k.name.None? {
      NothingIsTidy(slot, free);
    } else if Counts(ks) {
      CodeIsTidy(k.value, slot, free);
    } else {
      CodeIsTidy(k.value, free, free + 1);
      DroppedIsTidy(CodeOf(k.value, free, free + 1), slot, free);
    }
  }

  lemma {:induction false} KeywordsAreTidy(ks: seq<Keyword>, slot: nat, free: nat)
    requires slot < free
    ensures Tidy(KeywordCode(ks, slot, free), slot, free)
    decreases ks, 1
  {
    hide Tidy;
    if ks == [] {
      NothingIsTidy(slot, free);
    } else {
      var a := FirstKeyword(ks, slot, free);
      FirstKeywordIsTidy(ks, slot, free);
      TidyIsLater(a, slot, free);
      KeywordsAreTidy(ks[1..], slot, a.next);
      TidyTwice(a, KeywordCode(ks[1..], slot, a.next), slot, free);
    }
  }

  // ---- Calls and keywords -------------------------------------------------------------------------------

  lemma {:induction false} CallRuns(p: Program, e: Expr, s: State, slot: nat, free: nat, n: Literals<Place>)
    requires e.Call? && slot < free && Starts(CodeOf(e, slot, free), s.env, n)
    ensures var r := Expression(p, e, s, false, {}); Runs(CodeOf(e, slot, free), slot, free, n, r.value, r.state.env)
    decreases e, 0
  {
    hide Runs, Merge, MergeAll, Spent, Agrees, Tidy;
    var callee := e.callee;
    var receiver := if callee.Attribute? then Expression(p, callee.value, s, false, {}) else Outcome(NOTHING, s, NOTHING);
    var a := if callee.Attribute? then CodeOf(callee.value, slot, free) else Code([], free);
    var b := ListCode(e.arguments, slot, a.next);
    var c := KeywordCode(e.keywords, slot, b.next);
    SpentParts(n, a.rules + b.rules, c.rules);
    SpentParts(n, a.rules, b.rules);
    if callee.Attribute? {
      ExpressionRuns(p, callee.value, s, slot, free, n);
    } else {
      NothingRuns(slot, free, n, s.env);
    }
    NextIsLater(a, slot, free, n, receiver.value, receiver.state.env);
    ListIsTidy(e.arguments, slot, a.next);
    TidyIsLater(b, slot, a.next);
    FirstPart(a, b, slot, free, n, receiver.value, receiver.state.env);
    var args := List(p, e.arguments, receiver.state, false, {});
    ListRuns(p, e.arguments, receiver.state, slot, a.next, Pass(n, a.rules));
    TwoRun(a, b, slot, free, n, receiver.value, receiver.state.env, MergeAll(args.value), args.state.env);
    var ab := Code(a.rules + b.rules, b.next);
    KeywordsAreTidy(e.keywords, slot, b.next);
    FirstPart(ab, c, slot, free, n, Merge(receiver.value, MergeAll(args.value)), args.state.env);
    var named := Keywords(p, e.keywords, args.state, false, {});
    KeywordsRun(p, e.keywords, args.state, slot, b.next, Pass(n, ab.rules));
    TwoRun(ab, c, slot, free, n, Merge(receiver.value, MergeAll(args.value)), args.state.env, MergeAll(ValuesOf(named.value)), named.state.env);
    MergeInTurn(receiver.value, args.value, ValuesOf(named.value));
  }

  lemma MergeInTurn(a: Sources, b: seq<Sources>, c: seq<Sources>)
    ensures MergeAll([a] + b + c) == Merge(Merge(a, MergeAll(b)), MergeAll(c))
  {
    MergeAllConcat([a] + b, c);
    MergeAllConcat([a], b);
    MergeNothing(a);
    assert [a][1..] == [];
    assert MergeAll([a]) == a;
  }

  /** A value evaluated into a slot of its own leaves the other slot alone. */
  lemma DroppedRuns(c: Code, slot: nat, free: nat, n: Literals<Place>, v: Sources, env': Env)
    requires slot < free && Runs(c, free, free + 1, n, v, env')
    ensures Runs(c, slot, free, n, NOTHING, env')
  {
    DroppedIsTidy(c, slot, free);
    SlotsOutside(n, c.rules, free, free + 1, c.next, slot);
  }

  lemma {:induction false} KeywordsRun(p: Program, ks: seq<Keyword>, s: State, slot: nat, free: nat, n: Literals<Place>)
    requires slot < free && Starts(KeywordCode(ks, slot, free), s.env, n)
    ensures var r := Keywords(p, ks, s, false, {});
            Runs(KeywordCode(ks, slot, free), slot, free, n, MergeAll(ValuesOf(r.value)), r.state.env)
    decreases ks
  {
    hide Runs, Merge, Spent, Agrees, Tidy;
    if ks == [] {
      NothingRuns(slot, free, n, s.env);
    } else {
      var k := ks[0];
      assert k.value < k;
      var a := FirstKeyword(ks, slot, free);
      var b := KeywordCode(ks[1..], slot, a.next);
      SpentParts(n, a.rules, b.rules);
      var first := if k.name.None? then Outcome(NOTHING, s, NOTHING) else Expression(p, k.value, s, false, {});
      var counted := if k.name.Some? && Counts(ks) then first.value else NOTHING;
      if k.name.None? {
        NothingRuns(slot, free, n, s.env);
      } else if Counts(ks) {
        ExpressionRuns(p, k.value, s, slot, free, n);
      } else {
        ExpressionRuns(p, k.value, s, free, free + 1, n);
        DroppedRuns(a, slot, free, n, first.value, first.state.env);
      }
      NextIsLater(a, slot, free, n, counted, first.state.env);
      KeywordsAreTidy(ks[1..], slot, a.next);
      FirstPart(a, b, slot, free, n, counted, first.state.env);
      KeywordsRun(p, ks[1..], first.state, slot, a.next, Pass(n, a.rules));
      var rest := Keywords(p, ks[1..], first.state, false, {});
      TwoRun(a, b, slot, free, n, counted, first.state.env, MergeAll(ValuesOf(rest.value)), rest.state.env);
      FirstKeywordValue(p, ks, s, rest.value);
    }
  }

  /** What the first keyword adds to the values kept. */
  lemma FirstKeywordValue(p: Program, ks: seq<Keyword>, s: State, rest: Named)
    requires ks != []
    requires var st := if ks[0].name.None? then s else Expression(p, ks[0].value, s, false, {}).state;
             rest == Keywords(p, ks[1..], st, false, {}).value
    ensures var counted := if ks[0].name.Some? && Counts(ks) then Expression(p, ks[0].value, s, false, {}).value else NOTHING;
            MergeAll(ValuesOf(Keywords(p, ks, s, false, {}).value)) == Merge(counted, MergeAll(ValuesOf(rest)))
  {
    var k := ks[0];
    MergeNothing(MergeAll(ValuesOf(rest)));
    if k.name.Some? {
      var r := Expression(p, k.value, s, false, {});
      KeywordsNamed(p, ks[1..], r.state, k.name.value);
      var all := [(k.name.value, r.value)] + rest;
      assert Keywords(p, ks, s, false, {}).value == all;
      assert all[1..] == rest;
      if Counts(ks) {
        assert ValuesOf(all) == [r.value] + ValuesOf(rest);
        assert ([r.value] + ValuesOf(rest))[1..] == ValuesOf(rest);
      } else {
        assert ValuesOf(all) == ValuesOf(rest);
      }
    }
  }

  // ---- A pass over the assignments is a pass of their code ------------------------------------------------

  /** One assignment: its value into a slot, and from there to its targets. */
  function AssignmentCode(a: Assignment, free: nat): Code {
    var value := CodeOf(a.value, free, free + 1);
    Code(value.rules + [Rule({}, {Held(free)}, NamedAll(AllTargets(a.targets)))], value.next)
  }

  ghost predicate UsesOnly(rules: seq<Rule<Place>>, free: nat, next: nat) {
    forall r, j: nat :: r in rules && (Held(j) in r.names || Held(j) in r.targets) ==> free <= j < next
  }

  /** Only slots in [free, next) are used. */
  ghost predicate Own(c: Code, free: nat) {
    free <= c.next && UsesOnly(c.rules, free, c.next) && ReadsOnly(c.rules, free, c.next)
  }

  lemma AssignmentIsOwn(a: Assignment, free: nat)
    ensures Own(AssignmentCode(a, free), free)
  {
    CodeIsTidy(a.value, free, free + 1);
    var value := CodeOf(a.value, free, free + 1);
    var rule: Rule<Place> := Rule({}, {Held(free)}, NamedAll(AllTargets(a.targets)));
    assert forall r :: r in value.rules + [rule] <==> r in value.rules || r == rule;
  }

  lemma OwnTwice(a: Code, b: Code, free: nat)
    requires Own(a, free) && Own(b, a.next)
    ensures Own(Code(a.rules + b.rules, b.next), free)
  {
  }

  lemma {:induction false} AssignmentsAreOwn(assignments: seq<Assignment>, free: nat)
    ensures Own(AssignmentsCode(assignments, free), free)
    decreases |assignments|
  {
    hide Own, AssignmentCode;
    if assignments == [] {
      assert Own(Code([], free), free) by {
        NothingIsOwn(free);
      }
    } else {
      var a := AssignmentCode(assignments[0], free);
      AssignmentIsOwn(assignments[0], free);
      AssignmentsAreOwn(assignments[1..], a.next);
      OwnTwice(a, AssignmentsCode(assignments[1..], a.next), free);
    }
  }

  lemma NothingIsOwn(free: nat)
    ensures Own(Code([], free), free)
  {
  }

  lemma AssignmentRuns(p: Program, a: Assignment, env: Env, free: nat, n: Literals<Place>)
    requires Starts(AssignmentCode(a, free), env, n)
    ensures var r := Expression(p, a.value, State(env, env), false, {});
            var n' := Pass(n, AssignmentCode(a, free).rules);
            Agrees(AssignEach(a.targets, r.value, r.state.env), n') && Spent(n', AssignmentCode(a, free).rules)
  {
    hide Runs, Spent, Agrees, Merge, CodeOf;
    var value := CodeOf(a.value, free, free + 1);
    var rule: Rule<Place> := Rule({}, {Held(free)}, NamedAll(AllTargets(a.targets)));
    SpentParts(n, value.rules, [rule]);
    ExpressionRuns(p, a.value, State(env, env), free, free + 1, n);
    var r := Expression(p, a.value, State(env, env), false, {});
    RunsFlat(value, free, free + 1, n, r.value, r.state.env);
    AssignEachGives(a.targets, r.value, r.state.env);
    assert NamedAll(AllTargets(a.targets)) + {} == NamedAll(AllTargets(a.targets));
    HandingOverRuns(value, free, n, r.value, r.state.env, AllTargets(a.targets), {}, AssignEach(a.targets, r.value, r.state.env));
  }

  lemma RunsFlat(c: Code, slot: nat, free: nat, n: Literals<Place>, value: Sources, env': Env)
    requires Runs(c, slot, free, n, value, env')
    ensures Flat(value) && FlatEnv(env')
  {
  }

  lemma {:induction false} AssignmentsRun(p: Program, assignments: seq<Assignment>, env: Env, free: nat, n: Literals<Place>)
    requires Starts(AssignmentsCode(assignments, free), env, n)
    ensures var c := AssignmentsCode(assignments, free);
            Agrees(AssignAll(p, assignments, env).env, Pass(n, c.rules)) && Spent(Pass(n, c.rules), c.rules)
    decreases |assignments|
  {
    hide Spent, Agrees, AssignmentCode, Own, Merge;
    if assignments != [] {
      var first := assignments[0];
      var a := AssignmentCode(first, free);
      var b := AssignmentsCode(assignments[1..], a.next);
      SpentParts(n, a.rules, b.rules);
      AssignmentRuns(p, first, env, free, n);
      AssignmentIsOwn(first, free);
      AssignmentsAreOwn(assignments[1..], a.next);
      var m := Pass(n, a.rules);
      ApartSpent(n, a, b, free);
      var r := Expression(p, first.value, State(env, env), false, {});
      AssignmentsRun(p, assignments[1..], AssignEach(first.targets, r.value, r.state.env), a.next, m);
      SpentApart(m, a, b, free);
      PassConcat(n, a.rules, b.rules);
      SpentParts(Pass(m, b.rules), a.rules, b.rules);
    }
  }

  lemma OwnSlots(n: Literals<Place>, c: Code, free: nat, j: nat)
    requires Own(c, free) && !(free <= j < c.next)
    ensures At(Pass(n, c.rules), Held(j)) == At(n, Held(j))
  {
    var other := j + 1;
    assert Uses(c.rules, other, free, c.next);
    SlotsOutside(n, c.rules, other, free, c.next, j);
  }

  /** Running the first code does not disturb what the second reads. */
  lemma ApartSpent(n: Literals<Place>, a: Code, b: Code, free: nat)
    requires Own(a, free) && Own(b, a.next) && Spent(n, b.rules)
    ensures Spent(Pass(n, a.rules), b.rules)
  {
    PassGrows(n, a.rules);
    forall j: nat | a.next <= j < b.next ensures At(Pass(n, a.rules), Held(j)) == At(n, Held(j)) {
      OwnSlots(n, a, free, j);
    }
    SpentAcross(n, Pass(n, a.rules), b.rules, a.next, b.next);
  }

  /** Nor the second what the first has read. */
  lemma SpentApart(m: Literals<Place>, a: Code, b: Code, free: nat)
    requires Own(a, free) && Own(b, a.next) && Spent(m, a.rules)
    ensures Spent(Pass(m, b.rules), a.rules)
  {
    PassGrows(m, b.rules);
    forall j: nat | free <= j < a.next ensures At(Pass(m, b.rules), Held(j)) == At(m, Held(j)) {
      OwnSlots(m, b, a.next, j);
    }
    SpentAcross(m, Pass(m, b.rules), a.rules, free, a.next);
  }

  // ---- Exactly when the bounded loop is enough --------------------------------------------------------------

  /** The rules of all assignments in the order of evaluation. */
  function Order(p: Program): seq<Rule<Place>> {
    AssignmentsCode(p.assignments, 0).rules
  }

  /** The variables after `k` passes, however many those are. */
  ghost function After(p: Program, k: nat): Env {
    if k == 0 then map[] else AssignAll(p, p.assignments, After(p, k - 1)).env
  }

  lemma {:induction false} PassesAgree(p: Program, k: nat)
    ensures Agrees(After(p, k), Passes(Order(p), k)) && Spent(Passes(Order(p), k), Order(p))
  {
    hide AssignmentsCode;
    if k > 0 {
      PassesAgree(p, k - 1);
      AssignmentsRun(p, p.assignments, After(p, k - 1), 0, Passes(Order(p), k - 1));
    }
  }

  /** After `k` passes a variable holds exactly the literals with a chain to it, in the order of
      evaluation, that goes back fewer than `k` times. */
  lemma AfterIsWithin(p: Program, k: nat, a: string, x: string)
    ensures a in Look(After(p, k), x).literals <==> Within(Order(p), k, a, Named(x))
  {
    hide Order;
    PassesAgree(p, k);
    PassesAreChains(Order(p), k, a, Named(x));
    var env := After(p, k);
    assert x in env.Keys ==> env[x].literals == Passes(Order(p), k)[Named(x)];
  }

  lemma {:induction false} FixedAfter(p: Program, j: nat, k: nat)
    requires j <= k && After(p, j + 1) == After(p, j)
    ensures After(p, k) == After(p, j)
    decreases k
  {
    if j < k {
      FixedAfter(p, j, k - 1);
    }
  }

  lemma {:induction false} LoadIsAfter(p: Program, j: nat, k: nat)
    ensures LoadPasses(p, After(p, j), k).env == After(p, j + k)
    decreases k
  {
    hide AssignAll, Merge;
    if k > 0 {
      var next := AssignAll(p, p.assignments, After(p, j)).env;
      assert next == After(p, j + 1);
      hide After;
      if next == After(p, j) {
        FixedAfter(p, j, j + k);
      } else {
        LoadIsAfter(p, j + 1, k - 1);
      }
    }
  }

  /** Every literal that ever reaches a variable does so going back at most as often as there
      are assignments. */
  ghost predicate Shallow(p: Program) {
    forall a, x, path :: Path(path, Order(p), a, Named(x)) ==> Within(Order(p), |p.assignments| + 1, a, Named(x))
  }

  lemma KeysAfter(p: Program, k: nat)
    requires k > 0
    ensures After(p, k + 1).Keys == After(p, k).Keys
  {
    hide Order, Spent, Within;
    PassesAgree(p, k);
    PassesAgree(p, k + 1);
    PassKeys(Passes(Order(p), k), Order(p));
    PassKeys(Passes(Order(p), k - 1), Order(p));
    assert Passes(Order(p), k + 1).Keys == Passes(Order(p), k).Keys;
    assert forall x :: x in After(p, k + 1).Keys <==> Named(x) in Passes(Order(p), k + 1);
    assert forall x :: x in After(p, k).Keys <==> Named(x) in Passes(Order(p), k);
  }

  lemma SameAfter(p: Program, j: nat, k: nat)
    requires After(p, j).Keys == After(p, k).Keys
    requires forall a, x :: a in Look(After(p, j), x).literals <==> a in Look(After(p, k), x).literals
    ensures After(p, j) == After(p, k)
  {
    PassesAgree(p, j);
    PassesAgree(p, k);
    var e, f := After(p, j), After(p, k);
    forall x | x in e.Keys ensures e[x] == f[x] {
      assert forall a :: a in Look(e, x).literals <==> a in Look(f, x).literals;
      assert e[x].literals == f[x].literals;
      SameSources(e[x], f[x]);
    }
  }

  /** The bounded loop ends at a fixed point exactly if no literal has to go back more often than
      there are assignments, whatever the walrus expressions. */
  lemma LoadConvergesExactly(p: Program)
    ensures AssignAll(p, p.assignments, Load(p).env).env == Load(p).env <==> Shallow(p)
  {
    var m := |p.assignments| + 1;
    LoadIsAfter(p, 0, m);
    assert Load(p).env == After(p, m) && AssignAll(p, p.assignments, Load(p).env).env == After(p, m + 1);
    hide Order, Within, LoadPasses, AssignAll;
    if Shallow(p) {
      forall a, x ensures a in Look(After(p, m + 1), x).literals <==> a in Look(After(p, m), x).literals {
        AfterIsWithin(p, m, a, x);
        AfterIsWithin(p, m + 1, a, x);
        WithinMore(Order(p), m, a, Named(x));
        if Within(Order(p), m + 1, a, Named(x)) {
          var path := PathWithin(Order(p), m + 1, a, Named(x));
        }
      }
      KeysAfter(p, m);
      SameAfter(p, m + 1, m);
    }
    if After(p, m + 1) == After(p, m) {
      forall a, x, path | Path(path, Order(p), a, Named(x)) ensures Within(Order(p), m, a, Named(x)) {
        var k := m + Descents(path) + 1;
        PathIsWithin(path, Order(p), k, a, Named(x));
        AfterIsWithin(p, k, a, x);
        FixedAfter(p, m, k);
        AfterIsWithin(p, m, a, x);
      }
    }
  }

  lemma WithinMore(rules: seq<Rule<Place>>, k: nat, a: string, x: Place)
    ensures Within(rules, k, a, x) ==> Within(rules, k + 1, a, x)
  {
  }

  lemma PathWithin(rules: seq<Rule<Place>>, k: nat, a: string, x: Place) returns (path: seq<nat>)
    requires Within(rules, k, a, x)
    ensures Path(path, rules, a, x)
  {
    path :| Path(path, rules, a, x) && Descents(path) < k;
  }

  lemma PathIsWithin(path: seq<nat>, rules: seq<Rule<Place>>, k: nat, a: string, x: Place)
    requires Path(path, rules, a, x) && Descents(path) < k
    ensures Within(rules, k, a, x)
  {
  }

  /** Without walrus expressions none has to. */
  lemma WalrusFreeIsShallow(p: Program)
    requires WalrusFreeAssignments(p.assignments)
    ensures Shallow(p)
  {
    hide Shallow, Load, AssignAll;
    LoadConverges(p);
    LoadConvergesExactly(p);
  }
}
