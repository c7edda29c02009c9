/**
 * The analysis invents nothing: every literal and every option it reports,
 * however deep the calls it follows, is written in the producer.
 */
module ProducerEvidence {
  import opened Wrappers
  import opened Provenance
  import opened ProducerSyntax
  import opened ProducerAnalysis
  import ModuleSources

  /** The texts and options a producer is written with. */
  datatype Source = Source(texts: set<string>, options: set<string>)

  // ---- What is written in the syntax ---------------------------------------------------------

  ghost predicate ExprIn(e: Expr, u: Source) {
    match e
    case Text(text) => text in u.texts
    case Attribute(value, _) => ExprIn(value, u)
    case Call(callee, arguments, keywords) =>
      ExprIn(callee, u) && ExprsIn(arguments, u) && forall k :: k in keywords ==> ExprIn(k.value, u)
    case Walrus(_, value) => ExprIn(value, u)
    case Elements(elements) => ExprsIn(elements, u)
    case Compound(children) => ExprsIn(children, u)
    case _ => true
  }

  ghost predicate ExprsIn(es: seq<Expr>, u: Source) {
    forall e :: e in es ==> ExprIn(e, u)
  }

  ghost predicate StmtIn(s: Stmt, u: Source) {
    match s
    case Assign(_, value) => ExprIn(value, u)
    case AugAssign(target, value) => ExprIn(target, u) && ExprIn(value, u)
    case Evaluate(value) => ExprIn(value, u)
    case Return(value) => ExprIn(value, u)
    case For(_, iter, body, orelse) => ExprIn(iter, u) && StmtsIn(body, u) && StmtsIn(orelse, u)
    case Branch(test, body, orelse) => ExprIn(test, u) && StmtsIn(body, u) && StmtsIn(orelse, u)
    case With(items, body) => (forall i :: i in items ==> ExprIn(i.context, u)) && StmtsIn(body, u)
    case Try(blocks) => forall b :: b in blocks ==> StmtsIn(b.stmts, u)
    case Other => true
  }

  ghost predicate StmtsIn(stmts: seq<Stmt>, u: Source) {
    forall s :: s in stmts ==> StmtIn(s, u)
  }

  ghost predicate ArgumentIn(a: Argument, u: Source) {
    Options(a.names) <= u.options && (a.default.Some? ==> ExprIn(a.default.value, u))
  }

  ghost predicate FunctionIn(f: Function, u: Source) {
    && (forall p :: p in f.parameters && p.default.Some? ==> ExprIn(p.default.value, u))
    && StmtsIn(f.body, u)
    && forall a :: a in f.declared ==> ArgumentIn(a, u)
  }

  ghost predicate ProgramIn(p: Program, u: Source) {
    && (forall name :: name in p.functions.Keys ==> FunctionIn(p.functions[name], u))
    && forall a :: a in p.assignments ==> ExprIn(a.value, u)
  }

  // ---- What the analysis may report --------------------------------------------------------------

  ghost predicate From(s: Sources, u: Source) {
    s.literals <= u.texts && s.options <= u.options && forall name :: name in s.attributes.Keys ==> From(s.attributes[name], u)
  }

  ghost predicate AllFrom(values: seq<Sources>, u: Source) {
    forall i :: 0 <= i < |values| ==> From(values[i], u)
  }

  ghost predicate NamedFrom(values: Named, u: Source) {
    forall i :: 0 <= i < |values| ==> From(values[i].1, u)
  }

  ghost predicate EnvFrom(env: Env, u: Source) {
    forall x :: x in env.Keys ==> From(env[x], u)
  }

  ghost predicate StateFrom(s: State, u: Source) {
    EnvFrom(s.env, u) && EnvFrom(s.globals, u)
  }

  ghost predicate Reports(value: Sources, s: State, recorded: Sources, u: Source) {
    From(value, u) && StateFrom(s, u) && From(recorded, u)
  }

  lemma {:induction false} MergeFrom(a: Sources, b: Sources, u: Source)
    requires From(a, u) && From(b, u)
    ensures From(Merge(a, b), u)
    decreases a
  {
    var m := Merge(a, b);
    forall name | name in m.attributes.Keys ensures From(m.attributes[name], u) {
      if name in a.attributes && name in b.attributes {
        MergeFrom(a.attributes[name], b.attributes[name], u);
      }
    }
  }

  lemma NothingFrom(u: Source)
    ensures From(NOTHING, u)
  {
  }

  lemma AttributeFrom(s: Sources, name: string, u: Source)
    requires From(s, u)
    ensures From(Provenance.Attribute(s, name), u)
  {
  }

  lemma {:induction false} MergeAllFrom(values: seq<Sources>, u: Source)
    requires AllFrom(values, u)
    ensures From(MergeAll(values), u)
    decreases |values|
  {
    NothingFrom(u);
    if values != [] {
      MergeAllFrom(values[1..], u);
      MergeFrom(values[0], MergeAll(values[1..]), u);
    }
  }

  lemma {:induction false} ValuesFrom(values: Named, u: Source)
    requires NamedFrom(values, u)
    ensures AllFrom(ValuesOf(values), u)
    decreases |values|
  {
    if values != [] {
      ValuesFrom(values[1..], u);
    }
  }

  lemma {:induction false} FindFrom(values: Named, name: string, u: Source)
    requires NamedFrom(values, u)
    ensures Find(values, name).Some? ==> From(Find(values, name).value, u)
    decreases |values|
  {
    if values != [] {
      FindFrom(values[1..], name, u);
    }
  }

  lemma LookFrom(env: Env, name: string, u: Source)
    requires EnvFrom(env, u)
    ensures From(Look(env, name), u)
  {
    NothingFrom(u);
  }

  lemma PutFrom(env: Env, name: string, value: Sources, u: Source)
    requires EnvFrom(env, u) && From(value, u)
    ensures EnvFrom(env[name := value], u)
  {
  }

  lemma {:induction false} AssignFrom(target: Expr, value: Sources, env: Env, u: Source)
    requires From(value, u) && EnvFrom(env, u)
    ensures EnvFrom(AssignTo(target, value, env), u)
    decreases target
  {
    match target {
      case Name(id) =>
        LookFrom(env, id, u);
        MergeFrom(Look(env, id), value, u);
      case Elements(elements) =>
        AssignEachFrom(elements, value, env, u);
      case _ =>
    }
  }

  lemma {:induction false} AssignEachFrom(targets: seq<Expr>, value: Sources, env: Env, u: Source)
    requires From(value, u) && EnvFrom(env, u)
    ensures EnvFrom(AssignEach(targets, value, env), u)
    decreases targets
  {
    if targets != [] {
      AssignFrom(targets[0], value, env, u);
      AssignEachFrom(targets[1..], value, AssignTo(targets[0], value, env), u);
    }
  }

  lemma JoinFrom(env: Env, branch: Env, u: Source)
    requires EnvFrom(env, u) && EnvFrom(branch, u)
    ensures EnvFrom(JoinInto(env, branch), u)
  {
    forall x | x in JoinInto(env, branch).Keys ensures From(JoinInto(env, branch)[x], u) {
      LookFrom(env, x, u);
      if x in branch {
        MergeFrom(Look(env, x), branch[x], u);
      }
    }
  }

  lemma WrittenFrom(w: Written, receiver: Sources, arguments: seq<Sources>, u: Source)
    requires From(receiver, u) && AllFrom(arguments, u)
    ensures From(WrittenSources(w, receiver, arguments), u)
  {
    NothingFrom(u);
  }

  // ---- Evaluation ------------------------------------------------------------------------------------

  lemma {:induction false} ExpressionFrom(p: Program, e: Expr, s: State, follow: bool, active: set<string>, u: Source)
    requires ProgramIn(p, u) && ExprIn(e, u) && StateFrom(s, u)
    ensures var r := Expression(p, e, s, follow, active); Reports(r.value, r.state, r.recorded, u)
    decreases Fuel(p, follow, active), e, 1
  {
    hide Merge, ProgramIn, From;
    NothingFrom(u);
    match e {
      case Empty =>
      case Text(text) =>
        TextFrom(text, u);
      case Name(id) =>
        LookFrom(s.env, id, u);
      case Attribute(value, attr) =>
        ExpressionFrom(p, value, s, follow, active, u);
        AttributeFrom(Expression(p, value, s, follow, active).value, attr, u);
      case Call(_, _, _) =>
        CallFrom(p, e, s, follow, active, u);
      case Walrus(target, value) =>
        ExpressionFrom(p, value, s, follow, active, u);
        var r := Expression(p, value, s, follow, active);
        AssignFrom(target, r.value, r.state.env, u);
      case Elements(elements) =>
        ListFrom(p, elements, s, follow, active, u);
        MergeAllFrom(List(p, elements, s, follow, active).value, u);
      case Compound(children) =>
        ListFrom(p, children, s, follow, active, u);
        MergeAllFrom(List(p, children, s, follow, active).value, u);
    }
  }

  lemma TextFrom(text: string, u: Source)
    requires text in u.texts
    ensures From(Sources({text}, {}, map[]), u)
  {
  }

  lemma {:induction false} CallFrom(p: Program, e: Expr, s: State, follow: bool, active: set<string>, u: Source)
    requires e.Call? && ProgramIn(p, u) && ExprIn(e, u) && StateFrom(s, u)
    ensures var r := Expression(p, e, s, follow, active); Reports(r.value, r.state, r.recorded, u)
    decreases Fuel(p, follow, active), e, 0
  {
    hide Merge, MergeAll, From, List, Keywords, Enter, Namespace, EnvFrom, AllFrom, NamedFrom;
    NothingFrom(u);
    var callee := e.callee;
    assert callee.Attribute? ==> ExprIn(callee, u) && ExprIn(callee.value, u);
    var receiver := if callee.Attribute? then Expression(p, callee.value, s, follow, active) else Outcome(NOTHING, s, NOTHING);
    if callee.Attribute? {
      ExpressionFrom(p, callee.value, s, follow, active, u);
    }
    assert Reports(receiver.value, receiver.state, receiver.recorded, u);
    ListFrom(p, e.arguments, receiver.state, follow, active, u);
    var args := List(p, e.arguments, receiver.state, follow, active);
    KeywordsFrom(p, e.keywords, args.state, follow, active, u);
    var named := Keywords(p, e.keywords, args.state, follow, active);
    MergeFrom(receiver.recorded, args.recorded, u);
    MergeFrom(Merge(receiver.recorded, args.recorded), named.recorded, u);
    var recorded := Merge(Merge(receiver.recorded, args.recorded), named.recorded);
    if follow && callee.Name? && callee.id in p.functions {
      EnterFrom(p, callee.id, args.value, named.value, named.state, active, u);
      var returned := Enter(p, callee.id, args.value, named.value, named.state, active);
      assert FunctionIn(p.functions[callee.id], u);
      NothingKnown(u);
      NamespaceFrom(p, p.functions[callee.id].declared, returned.state, map[], active, u);
      var namespace := Namespace(p, p.functions[callee.id].declared, returned.state, map[], active);
      AttributesFrom(namespace.value, u);
      MergeFrom(returned.value, Sources({}, {}, namespace.value), u);
      MergeFrom(recorded, returned.recorded, u);
      MergeFrom(Merge(recorded, returned.recorded), namespace.recorded, u);
    } else {
      WrittenFrom(WrittenBy(e), receiver.value, args.value, u);
      MergeFrom(recorded, WrittenSources(WrittenBy(e), receiver.value, args.value), u);
      ValuesFrom(named.value, u);
      AllTogether(receiver.value, args.value, ValuesOf(named.value), u);
      MergeAllFrom([receiver.value] + args.value + ValuesOf(named.value), u);
    }
  }

  lemma NothingKnown(u: Source)
    ensures EnvFrom(map[], u)
  {
  }

  lemma AttributesFrom(attributes: Env, u: Source)
    requires EnvFrom(attributes, u)
    ensures From(Sources({}, {}, attributes), u)
  {
  }

  lemma AllTogether(a: Sources, b: seq<Sources>, c: seq<Sources>, u: Source)
    requires From(a, u) && AllFrom(b, u) && AllFrom(c, u)
    ensures AllFrom([a] + b + c, u)
  {
  }

  lemma {:induction false} ListFrom(p: Program, es: seq<Expr>, s: State, follow: bool, active: set<string>, u: Source)
    requires ProgramIn(p, u) && ExprsIn(es, u) && StateFrom(s, u)
    ensures var r := List(p, es, s, follow, active); AllFrom(r.value, u) && StateFrom(r.state, u) && From(r.recorded, u)
    decreases Fuel(p, follow, active), es
  {
    hide Merge, ProgramIn, From, EnvFrom, ExprIn;
    NothingFrom(u);
    if es != [] {
      ExpressionFrom(p, es[0], s, follow, active, u);
      var first := Expression(p, es[0], s, follow, active);
      ListFrom(p, es[1..], first.state, follow, active, u);
      MergeFrom(first.recorded, List(p, es[1..], first.state, follow, active).recorded, u);
    }
  }

  lemma {:induction false} KeywordsFrom(p: Program, ks: seq<Keyword>, s: State, follow: bool, active: set<string>, u: Source)
    requires ProgramIn(p, u) && (forall k :: k in ks ==> ExprIn(k.value, u)) && StateFrom(s, u)
    ensures var r := Keywords(p, ks, s, follow, active); NamedFrom(r.value, u) && StateFrom(r.state, u) && From(r.recorded, u)
    decreases Fuel(p, follow, active), ks
  {
    hide Merge, ProgramIn, From, EnvFrom, ExprIn;
    NothingFrom(u);
    if ks != [] {
      var k := ks[0];
      if k.name.None? {
        KeywordsFrom(p, ks[1..], s, follow, active, u);
      } else {
        assert k.value < k;
        ExpressionFrom(p, k.value, s, follow, active, u);
        var first := Expression(p, k.value, s, follow, active);
        KeywordsFrom(p, ks[1..], first.state, follow, active, u);
        MergeFrom(first.recorded, Keywords(p, ks[1..], first.state, follow, active).recorded, u);
      }
    }
  }

  lemma {:induction false} NamespaceFrom(p: Program, declared: seq<Argument>, s: State, attributes: Env, active: set<string>, u: Source)
    requires ProgramIn(p, u) && (forall a :: a in declared ==> ArgumentIn(a, u)) && StateFrom(s, u) && EnvFrom(attributes, u)
    ensures var r := Namespace(p, declared, s, attributes, active); EnvFrom(r.value, u) && StateFrom(r.state, u) && From(r.recorded, u)
    decreases 1, |declared|
  {
    hide Merge, ProgramIn, From, EnvFrom, ExprIn, Expression, Destination, Options;
    NothingFrom(u);
    if declared != [] {
      var a := declared[0];
      assert ArgumentIn(a, u);
      var name := Destination(a);
      if name == "" {
        NamespaceFrom(p, declared[1..], s, attributes, active, u);
      } else {
        var start := State(s.globals, s.globals);
        var default := if a.default.Some? then Expression(p, a.default.value, start, false, active) else Outcome(NOTHING, start, NOTHING);
        if a.default.Some? {
          ExpressionFrom(p, a.default.value, start, false, active, u);
        }
        LookFrom(attributes, name, u);
        MergeFrom(Look(attributes, name), default.value, u);
        OptionsFrom(Options(a.names), u);
        MergeFrom(Merge(Look(attributes, name), default.value), Sources({}, Options(a.names), map[]), u);
        var value := Merge(Merge(Look(attributes, name), default.value), Sources({}, Options(a.names), map[]));
        PutFrom(attributes, name, value, u);
        NamespaceFrom(p, declared[1..], State(s.env, default.state.env), attributes[name := value], active, u);
        MergeFrom(default.recorded, Namespace(p, declared[1..], State(s.env, default.state.env), attributes[name := value], active).recorded, u);
      }
    }
  }

  lemma OptionsFrom(options: set<string>, u: Source)
    requires options <= u.options
    ensures From(Sources({}, options, map[]), u)
  {
  }

  lemma {:induction false} BindFrom(p: Program, parameters: seq<Parameter>, arguments: seq<Sources>, named: Named, s: State, active: set<string>, u: Source)
    requires ProgramIn(p, u) && (forall x :: x in parameters && x.default.Some? ==> ExprIn(x.default.value, u))
    requires AllFrom(arguments, u) && NamedFrom(named, u) && StateFrom(s, u)
    ensures var r := Bind(p, parameters, arguments, named, s, active); StateFrom(r.state, u) && From(r.recorded, u)
    decreases 1, |parameters|
  {
    hide Merge, ProgramIn, From, EnvFrom, ExprIn, Expression;
    NothingFrom(u);
    if parameters != [] {
      var first := parameters[0];
      FindFrom(named, first.name, u);
      var given := if arguments != [] then Some(arguments[0]) else Find(named, first.name);
      var default := if given.None? && first.default.Some? then Expression(p, first.default.value, s, false, active)
                     else Outcome(if given.Some? then given.value else NOTHING, s, NOTHING);
      if given.None? && first.default.Some? {
        ExpressionFrom(p, first.default.value, s, false, active, u);
      }
      PutFrom(default.state.env, first.name, default.value, u);
      var next := default.state.(env := default.state.env[first.name := default.value]);
      var others := if arguments != [] then arguments[1..] else [];
      BindFrom(p, parameters[1..], others, named, next, active, u);
      MergeFrom(default.recorded, Bind(p, parameters[1..], others, named, next, active).recorded, u);
    }
  }

  lemma {:induction false} EnterFrom(p: Program, name: string, arguments: seq<Sources>, named: Named, s: State, active: set<string>, u: Source)
    requires ProgramIn(p, u) && name in p.functions && AllFrom(arguments, u) && NamedFrom(named, u) && StateFrom(s, u)
    ensures var r := Enter(p, name, arguments, named, s, active); Reports(r.value, r.state, r.recorded, u)
    decreases Fuel(p, true, active) - 1, 0
  {
    hide Merge, From, EnvFrom, Bind, Block;
    NothingFrom(u);
    if name !in active {
      EnteringUsesFuel(p, name, active);
      var f := p.functions[name];
      assert FunctionIn(f, u);
      var start := State(s.globals, s.globals);
      BindFrom(p, f.parameters, arguments, named, start, active, u);
      var bound := Bind(p, f.parameters, arguments, named, start, active);
      BlockFrom(p, f.body, bound.state, active + {name}, u);
      MergeFrom(bound.recorded, Block(p, f.body, bound.state, active + {name}).recorded, u);
    }
  }

  lemma {:induction false} BlockFrom(p: Program, stmts: seq<Stmt>, s: State, active: set<string>, u: Source)
    requires ProgramIn(p, u) && StmtsIn(stmts, u) && StateFrom(s, u)
    ensures var r := Block(p, stmts, s, active); Reports(r.value, r.state, r.recorded, u)
    decreases Fuel(p, true, active), stmts, 0
  {
    hide Merge, ProgramIn, From, EnvFrom, StmtIn, Statement;
    NothingFrom(u);
    if stmts != [] {
      StatementFrom(p, stmts[0], s, active, u);
      var first := Statement(p, stmts[0], s, active);
      BlockFrom(p, stmts[1..], first.state, active, u);
      var rest := Block(p, stmts[1..], first.state, active);
      MergeFrom(first.value, rest.value, u);
      MergeFrom(first.recorded, rest.recorded, u);
    }
  }

  lemma {:induction false} BlocksFrom(p: Program, blocks: seq<Suite>, s: State, active: set<string>, u: Source)
    requires ProgramIn(p, u) && (forall b :: b in blocks ==> StmtsIn(b.stmts, u)) && StateFrom(s, u)
    ensures var r := Blocks(p, blocks, s, active); Reports(r.value, r.state, r.recorded, u)
    decreases Fuel(p, true, active), blocks
  {
    hide Merge, ProgramIn, From, EnvFrom, StmtsIn, Block;
    NothingFrom(u);
    if blocks != [] {
      var suite := blocks[0];
      BlockFrom(p, suite.stmts, s, active, u);
      var first := Block(p, suite.stmts, s, active);
      BlocksFrom(p, blocks[1..], State(s.env, first.state.globals), active, u);
      var rest := Blocks(p, blocks[1..], State(s.env, first.state.globals), active);
      MergeFrom(first.value, rest.value, u);
      MergeFrom(first.recorded, rest.recorded, u);
    }
  }

  lemma {:induction false} ItemsFrom(p: Program, items: seq<Item>, s: State, inner: Env, active: set<string>, u: Source)
    requires ProgramIn(p, u) && (forall i :: i in items ==> ExprIn(i.context, u)) && StateFrom(s, u) && EnvFrom(inner, u)
    ensures var r := Items(p, items, s, inner, active); EnvFrom(r.value, u) && StateFrom(r.state, u) && From(r.recorded, u)
    decreases Fuel(p, true, active), items
  {
    hide Merge, ProgramIn, From, EnvFrom, ExprIn, Expression, AssignTo;
    NothingFrom(u);
    if items != [] {
      var item := items[0];
      assert item.context < item;
      ExpressionFrom(p, item.context, s, true, active, u);
      var first := Expression(p, item.context, s, true, active);
      if item.target.Some? {
        AssignFrom(item.target.value, first.value, inner, u);
      }
      var bound := if item.target.Some? then AssignTo(item.target.value, first.value, inner) else inner;
      ItemsFrom(p, items[1..], first.state, bound, active, u);
      MergeFrom(first.recorded, Items(p, items[1..], first.state, bound, active).recorded, u);
    }
  }

  lemma {:induction false} JoinedFrom(p: Program, stmts: seq<Stmt>, s: State, active: set<string>, u: Source)
    requires ProgramIn(p, u) && StmtsIn(stmts, u) && StateFrom(s, u)
    ensures var r := Joined(p, stmts, s, active); Reports(r.value, r.state, r.recorded, u)
    decreases Fuel(p, true, active), stmts, 1
  {
    hide Merge, ProgramIn, From, EnvFrom, Block, JoinInto;
    BlockFrom(p, stmts, s, active, u);
    JoinFrom(s.env, Block(p, stmts, s, active).state.env, u);
  }

  lemma {:induction false} StatementFrom(p: Program, stmt: Stmt, s: State, active: set<string>, u: Source)
    requires ProgramIn(p, u) && StmtIn(stmt, u) && StateFrom(s, u)
    ensures var r := Statement(p, stmt, s, active); Reports(r.value, r.state, r.recorded, u)
    decreases Fuel(p, true, active), stmt
  {
    hide Merge, ProgramIn, From, EnvFrom, Expression, Block, Blocks, Joined, Items, JoinInto, AssignTo, AssignEach, ExprIn;
    NothingFrom(u);
    match stmt {
      case Assign(targets, value) =>
        ExpressionFrom(p, value, s, true, active, u);
        var r := Expression(p, value, s, true, active);
        AssignEachFrom(targets, r.value, r.state.env, u);
      case AugAssign(target, value) =>
        ExpressionFrom(p, target, s, true, active, u);
        var left := Expression(p, target, s, true, active);
        ExpressionFrom(p, value, left.state, true, active, u);
        var right := Expression(p, value, left.state, true, active);
        MergeFrom(left.value, right.value, u);
        MergeFrom(left.recorded, right.recorded, u);
        AssignFrom(target, Merge(left.value, right.value), right.state.env, u);
      case Evaluate(value) =>
        ExpressionFrom(p, value, s, true, active, u);
      case Return(value) =>
        ExpressionFrom(p, value, s, true, active, u);
      case For(target, iter, body, orelse) =>
        ExpressionFrom(p, iter, s, true, active, u);
        var over := Expression(p, iter, s, true, active);
        AssignFrom(target, over.value, s.env, u);
        BlockFrom(p, body, State(AssignTo(target, over.value, s.env), over.state.globals), active, u);
        var first := Block(p, body, State(AssignTo(target, over.value, s.env), over.state.globals), active);
        BlockFrom(p, orelse, first.state, active, u);
        var second := Block(p, orelse, first.state, active);
        JoinFrom(over.state.env, second.state.env, u);
        MergeThree(over.recorded, first.recorded, second.recorded, u);
        MergeFrom(first.value, second.value, u);
      case Branch(test, body, orelse) =>
        ExpressionFrom(p, test, s, true, active, u);
        var tested := Expression(p, test, s, true, active);
        JoinedFrom(p, body, tested.state, active, u);
        var first := Joined(p, body, tested.state, active);
        JoinedFrom(p, orelse, first.state, active, u);
        var second := Joined(p, orelse, first.state, active);
        MergeThree(tested.recorded, first.recorded, second.recorded, u);
        MergeFrom(first.value, second.value, u);
      case With(items, body) =>
        ItemsFrom(p, items, s, s.env, active, u);
        var entered := Items(p, items, s, s.env, active);
        BlockFrom(p, body, State(entered.value, entered.state.globals), active, u);
        MergeFrom(entered.recorded, Block(p, body, State(entered.value, entered.state.globals), active).recorded, u);
      case Try(blocks) =>
        BlocksFrom(p, blocks, s, active, u);
      case Other =>
    }
  }

  lemma MergeThree(a: Sources, b: Sources, c: Sources, u: Source)
    requires From(a, u) && From(b, u) && From(c, u)
    ensures From(Merge(Merge(a, b), c), u)
  {
    MergeFrom(a, b, u);
    MergeFrom(Merge(a, b), c, u);
  }

  // ---- The whole producer -------------------------------------------------------------------------------

  lemma {:induction false} AssignAllFrom(p: Program, assignments: seq<Assignment>, env: Env, u: Source)
    requires ProgramIn(p, u) && (forall a :: a in assignments ==> ExprIn(a.value, u)) && EnvFrom(env, u)
    ensures var r := ModuleSources.AssignAll(p, assignments, env); EnvFrom(r.env, u) && From(r.recorded, u)
    decreases |assignments|
  {
    hide Merge, ProgramIn, From, EnvFrom, ExprIn, Expression;
    NothingFrom(u);
    if assignments != [] {
      var first := assignments[0];
      ExpressionFrom(p, first.value, State(env, env), false, {}, u);
      var r := Expression(p, first.value, State(env, env), false, {});
      AssignEachFrom(first.targets, r.value, r.state.env, u);
      var next := AssignEach(first.targets, r.value, r.state.env);
      AssignAllFrom(p, assignments[1..], next, u);
      MergeFrom(r.recorded, ModuleSources.AssignAll(p, assignments[1..], next).recorded, u);
    }
  }

  lemma {:induction false} LoadPassesFrom(p: Program, env: Env, k: nat, u: Source)
    requires ProgramIn(p, u) && EnvFrom(env, u)
    ensures var r := ModuleSources.LoadPasses(p, env, k); EnvFrom(r.env, u) && From(r.recorded, u)
    decreases k
  {
    hide Merge, From, EnvFrom, ExprIn;
    NothingFrom(u);
    if k > 0 {
      AssignAllFrom(p, p.assignments, env, u);
      var r := ModuleSources.AssignAll(p, p.assignments, env);
      LoadPassesFrom(p, r.env, k - 1, u);
      MergeFrom(r.recorded, ModuleSources.LoadPasses(p, r.env, k - 1).recorded, u);
    }
  }

  /** Everything loaded and recorded from the module's assignments is written in the producer. */
  lemma LoadInventsNothing(p: Program, u: Source)
    requires ProgramIn(p, u)
    ensures EnvFrom(ModuleSources.Load(p).env, u) && From(ModuleSources.Load(p).recorded, u)
  {
    NothingKnown(u);
    LoadPassesFrom(p, map[], |p.assignments| + 1, u);
  }
}
