/**
 * How one text, or one command line option, travels through a producer.
 *
 * A place is a variable, or an attribute of what it holds, and so on.  These
 * functions say which places hold the token, step by step through the syntax,
 * and which written operands it reaches.  They know nothing of the values that
 * the analysis computes; `ProducerReach` compares the two.
 */
module ProducerFlow {
  import opened Wrappers
  import opened ProducerSyntax
  import opened ProducerTable
  import opened ModuleSources
  import Spec = ProducerAnalysis

  datatype Token = Words(text: string) | Switch(option: string)

  /** Attribute after attribute, from the value inwards. */
  type Path = seq<string>

  type Paths = iset<Path>

  type Vars = iset<(string, Path)>

  /** Reading an attribute with a name in `closed` does not let the token through unless the attribute holds it. */
  datatype Tracing = Tracing(p: Program, token: Token, closed: set<string>)

  datatype Places = Places(env: Vars, globals: Vars)

  datatype Trace<V> = Trace(value: V, state: Places, recorded: Paths)

  type Named = seq<(string, Paths)>

  const NOWHERE: Paths := iset{}

  const HERE: Paths := iset{[]}

  // ---- Places ---------------------------------------------------------------------------------

  ghost function At(vars: Vars, name: string): Paths {
    iset q: Path | (name, q) in vars
  }

  ghost function Put(names: set<string>, paths: Paths): Vars {
    iset v: (string, Path) | v.0 in names && v.1 in paths
  }

  ghost function Without(vars: Vars, name: string): Vars {
    iset v: (string, Path) | v in vars && v.0 != name
  }

  /** Where the token is in the attribute, if it is at `paths` in the value. */
  ghost function Read(c: Tracing, paths: Paths, attr: string): Paths {
    iset q: Path | [attr] + q in paths || (q == [] && q in paths && attr !in c.closed)
  }

  /** The attributes of a value, as variables. */
  ghost function Inside(attributes: Vars): Paths {
    iset q: Path | q != [] && (q[0], q[1..]) in attributes
  }

  ghost predicate InSome(values: seq<Paths>, q: Path) {
    exists i :: 0 <= i < |values| && q in values[i]
  }

  ghost function Together(values: seq<Paths>): Paths {
    iset q: Path | InSome(values, q)
  }

  /** No later keyword has the name. */
  ghost predicate Kept(named: Named, i: nat)
    requires i < |named|
  {
    forall j :: i < j < |named| ==> named[j].0 != named[i].0
  }

  ghost predicate InKept(named: Named, q: Path) {
    exists i :: 0 <= i < |named| && Kept(named, i) && q in named[i].1
  }

  ghost function AllKept(named: Named): Paths {
    iset q: Path | InKept(named, q)
  }

  ghost predicate InGiven(named: Named, name: string, q: Path) {
    exists i :: 0 <= i < |named| && Kept(named, i) && named[i].0 == name && q in named[i].1
  }

  ghost function Given(named: Named, name: string): Paths {
    iset q: Path | InGiven(named, name, q)
  }

  ghost predicate IsGiven(named: Named, name: string) {
    exists i :: 0 <= i < |named| && named[i].0 == name
  }

  /** What a call that is not followed writes. */
  ghost function Operand(call: Expr, receiver: Paths, arguments: seq<Paths>): Paths
    requires call.Call? && |arguments| == |call.arguments|
  {
    if WritesReceiver(call) then receiver
    else if WritesFirst(call) then arguments[0]
    else if WritesSecond(call) then arguments[1]
    else NOWHERE
  }

  // ---- Expressions ------------------------------------------------------------------------------

  ghost function Expression(c: Tracing, e: Expr, s: Places, follow: bool, active: set<string>): (r: Trace<Paths>)
    ensures s.env <= r.state.env && s.globals <= r.state.globals
    ensures Spec.KeepsGlobals(c.p, follow) ==> r.state.globals == s.globals
    ensures !follow && WalrusFree(e) ==> r.state == s
    decreases Spec.Fuel(c.p, follow, active), e
  {
    match e
    case Empty => Trace(NOWHERE, s, NOWHERE)
    case Text(text) => Trace(if c.token == Words(text) then HERE else NOWHERE, s, NOWHERE)
    case Name(id) => Trace(At(s.env, id), s, NOWHERE)
    case Attribute(value, attr) =>
      var r := Expression(c, value, s, follow, active);
      r.(value := Read(c, r.value, attr))
    case Call(callee, arguments, keywords) =>
      assert WalrusFree(e) && callee.Attribute? ==> WalrusFree(callee) && WalrusFree(callee.value);
      var receiver := if callee.Attribute? then Expression(c, callee.value, s, follow, active) else Trace(NOWHERE, s, NOWHERE);
      var args := List(c, arguments, receiver.state, follow, active);
      var named := Keywords(c, keywords, args.state, follow, active);
      var recorded := receiver.recorded + args.recorded + named.recorded;
      if follow && callee.Name? && callee.id in c.p.functions then
        var returned := Enter(c, callee.id, args.value, named.value, named.state, active);
        var namespace := Namespace(c, c.p.functions[callee.id].declared, returned.state, iset{}, active);
        Trace(returned.value + Inside(namespace.value), namespace.state, recorded + returned.recorded + namespace.recorded)
      else
        Trace(receiver.value + Together(args.value) + AllKept(named.value), named.state,
              recorded + Operand(e, receiver.value, args.value))
    case Walrus(target, value) =>
      var r := Expression(c, value, s, follow, active);
      r.(state := r.state.(env := r.state.env + Put(Targets(target), r.value)))
    case Elements(elements) =>
      var r := List(c, elements, s, follow, active);
      Trace(Together(r.value), r.state, r.recorded)
    case Compound(children) =>
      var r := List(c, children, s, follow, active);
      Trace(Together(r.value), r.state, r.recorded)
  }

  ghost function List(c: Tracing, es: seq<Expr>, s: Places, follow: bool, active: set<string>): (r: Trace<seq<Paths>>)
    ensures |r.value| == |es|
    ensures s.env <= r.state.env && s.globals <= r.state.globals
    ensures Spec.KeepsGlobals(c.p, follow) ==> r.state.globals == s.globals
    ensures !follow && (forall e :: e in es ==> WalrusFree(e)) ==> r.state == s
    decreases Spec.Fuel(c.p, follow, active), es
  {
    if es == [] then Trace([], s, NOWHERE)
    else
      var first := Expression(c, es[0], s, follow, active);
      var rest := List(c, es[1..], first.state, follow, active);
      Trace([first.value] + rest.value, rest.state, first.recorded + rest.recorded)
  }

  ghost function Keywords(c: Tracing, ks: seq<Keyword>, s: Places, follow: bool, active: set<string>): (r: Trace<Named>)
    ensures s.env <= r.state.env && s.globals <= r.state.globals
    ensures Spec.KeepsGlobals(c.p, follow) ==> r.state.globals == s.globals
    ensures !follow && (forall k :: k in ks ==> WalrusFree(k.value)) ==> r.state == s
    decreases Spec.Fuel(c.p, follow, active), ks
  {
    if ks == [] then Trace([], s, NOWHERE)
    else if ks[0].name.None? then Keywords(c, ks[1..], s, follow, active)
    else
      var k := ks[0];
      assert k.value < k;
      var first := Expression(c, k.value, s, follow, active);
      var rest := Keywords(c, ks[1..], first.state, follow, active);
      Trace([(k.name.value, first.value)] + rest.value, rest.state, first.recorded + rest.recorded)
  }

  // ---- Functions --------------------------------------------------------------------------------

  /** The arguments a function declares: their defaults, and the options they are given with. */
  ghost function Namespace(c: Tracing, declared: seq<Argument>, s: Places, attributes: Vars, active: set<string>): (r: Trace<Vars>)
    ensures r.state.env == s.env && s.globals <= r.state.globals
    ensures (forall a :: a in declared && a.default.Some? ==> WalrusFree(a.default.value)) ==> r.state == s
    decreases 1, |declared|
  {
    if declared == [] then Trace(attributes, s, NOWHERE)
    else
      var a := declared[0];
      var name := Destination(a);
      if name == "" then Namespace(c, declared[1..], s, attributes, active)
      else
        var own := Places(s.globals, s.globals);
        var default := if a.default.Some? then Expression(c, a.default.value, own, false, active) else Trace(NOWHERE, own, NOWHERE);
        var option := if c.token.Switch? && c.token.option in a.names && "-" <= c.token.option then HERE else NOWHERE;
        var rest := Namespace(c, declared[1..], Places(s.env, default.state.env), attributes + Put({name}, default.value + option), active);
        rest.(recorded := default.recorded + rest.recorded)
  }

  /** Arguments in order, then keywords, then defaults. */
  ghost function Bind(c: Tracing, parameters: seq<Parameter>, arguments: seq<Paths>, named: Named, s: Places, active: set<string>): (r: Trace<()>)
    ensures r.state.globals == s.globals
    decreases 1, |parameters|
  {
    if parameters == [] then Trace((), s, NOWHERE)
    else
      var first := parameters[0];
      var value :=
        if arguments != [] then Trace(arguments[0], s, NOWHERE)
        else if IsGiven(named, first.name) then Trace(Given(named, first.name), s, NOWHERE)
        else if first.default.Some? then Expression(c, first.default.value, s, false, active)
        else Trace(NOWHERE, s, NOWHERE);
      var bound := Without(value.state.env, first.name) + Put({first.name}, value.value);
      var rest := Bind(c, parameters[1..], if arguments != [] then arguments[1..] else [], named, Places(bound, value.state.globals), active);
      rest.(recorded := value.recorded + rest.recorded)
  }

  ghost function Enter(c: Tracing, name: string, arguments: seq<Paths>, named: Named, s: Places, active: set<string>): (r: Trace<Paths>)
    requires name in c.p.functions
    ensures r.state.env == s.env && s.globals <= r.state.globals
    ensures Spec.KeepsGlobals(c.p, true) ==> r.state.globals == s.globals
    decreases Spec.Fuel(c.p, true, active) - 1, 0
  {
    if name in active then Trace(NOWHERE, s, NOWHERE)
    else
      Spec.EnteringUsesFuel(c.p, name, active);
      var bound := Bind(c, c.p.functions[name].parameters, arguments, named, Places(s.globals, s.globals), active);
      var r := Block(c, c.p.functions[name].body, bound.state, active + {name});
      Trace(r.value, Places(s.env, r.state.globals), bound.recorded + r.recorded)
  }

  // ---- Statements ---------------------------------------------------------------------------------

  ghost function Block(c: Tracing, stmts: seq<Stmt>, s: Places, active: set<string>): (r: Trace<Paths>)
    ensures s.globals <= r.state.globals
    ensures Spec.KeepsGlobals(c.p, true) ==> r.state.globals == s.globals
    decreases Spec.Fuel(c.p, true, active), stmts, 0
  {
    if stmts == [] then Trace(NOWHERE, s, NOWHERE)
    else
      var first := Statement(c, stmts[0], s, active);
      var rest := Block(c, stmts[1..], first.state, active);
      Trace(first.value + rest.value, rest.state, first.recorded + rest.recorded)
  }

  /** Each block on a copy of the variables. */
  ghost function Blocks(c: Tracing, blocks: seq<Suite>, s: Places, active: set<string>): (r: Trace<Paths>)
    ensures r.state.env == s.env && s.globals <= r.state.globals
    ensures Spec.KeepsGlobals(c.p, true) ==> r.state.globals == s.globals
    decreases Spec.Fuel(c.p, true, active), blocks
  {
    if blocks == [] then Trace(NOWHERE, s, NOWHERE)
    else
      var suite := blocks[0];
      var first := Block(c, suite.stmts, s, active);
      var rest := Blocks(c, blocks[1..], Places(s.env, first.state.globals), active);
      Trace(first.value + rest.value, rest.state, first.recorded + rest.recorded)
  }

  ghost function Items(c: Tracing, items: seq<Item>, s: Places, inner: Vars, active: set<string>): (r: Trace<Vars>)
    ensures s.globals <= r.state.globals
    ensures Spec.KeepsGlobals(c.p, true) ==> r.state.globals == s.globals
    decreases Spec.Fuel(c.p, true, active), items
  {
    if items == [] then Trace(inner, s, NOWHERE)
    else
      var item := items[0];
      assert item.context < item;
      var first := Expression(c, item.context, s, true, active);
      var bound := if item.target.Some? then inner + Put(Targets(item.target.value), first.value) else inner;
      var rest := Items(c, items[1..], first.state, bound, active);
      rest.(recorded := first.recorded + rest.recorded)
  }

  ghost function Statement(c: Tracing, stmt: Stmt, s: Places, active: set<string>): (r: Trace<Paths>)
    ensures s.globals <= r.state.globals
    ensures Spec.KeepsGlobals(c.p, true) ==> r.state.globals == s.globals
    decreases Spec.Fuel(c.p, true, active), stmt
  {
    match stmt
    case Assign(targets, value) =>
      var r := Expression(c, value, s, true, active);
      Trace(NOWHERE, r.state.(env := r.state.env + Put(AllTargets(targets), r.value)), r.recorded)
    case AugAssign(target, value) =>
      var left := Expression(c, target, s, true, active);
      var right := Expression(c, value, left.state, true, active);
      Trace(NOWHERE, right.state.(env := right.state.env + Put(Targets(target), left.value + right.value)), left.recorded + right.recorded)
    case Evaluate(value) =>
      Expression(c, value, s, true, active).(value := NOWHERE)
    case Return(value) =>
      Expression(c, value, s, true, active)
    case For(target, iter, body, orelse) =>
      var over := Expression(c, iter, s, true, active);
      var first := Block(c, body, Places(s.env + Put(Targets(target), over.value), over.state.globals), active);
      var second := Block(c, orelse, first.state, active);
      Trace(first.value + second.value, Places(over.state.env + second.state.env, second.state.globals),
            over.recorded + first.recorded + second.recorded)
    case Branch(test, body, orelse) =>
      var tested := Expression(c, test, s, true, active);
      var first := Block(c, body, tested.state, active);
      var joined := tested.state.env + first.state.env;
      var second := Block(c, orelse, Places(joined, first.state.globals), active);
      Trace(first.value + second.value, Places(joined + second.state.env, second.state.globals),
            tested.recorded + first.recorded + second.recorded)
    case With(items, body) =>
      var entered := Items(c, items, s, s.env, active);
      var inner := Block(c, body, Places(entered.value, entered.state.globals), active);
      Trace(inner.value, Places(entered.state.env, inner.state.globals), entered.recorded + inner.recorded)
    case Try(blocks) =>
      Blocks(c, blocks, s, active)
    case Other =>
      Trace(NOWHERE, s, NOWHERE)
  }

  // ---- The module -----------------------------------------------------------------------------------

  datatype Module = Module(vars: Vars, recorded: Paths)

  ghost function Assignments(c: Tracing, assignments: seq<Assignment>, vars: Vars): (r: Module)
    ensures vars <= r.vars
    decreases |assignments|
  {
    if assignments == [] then Module(vars, NOWHERE)
    else
      var first := assignments[0];
      var r := Expression(c, first.value, Places(vars, vars), false, {});
      var rest := Assignments(c, assignments[1..], r.state.env + Put(AllTargets(first.targets), r.value));
      Module(rest.vars, r.recorded + rest.recorded)
  }

  /** After `k` passes over the module's assignments. */
  ghost function Passes(c: Tracing, k: nat): Module {
    if k == 0 then Module(iset{}, NOWHERE)
    else
      var before := Passes(c, k - 1);
      var r := Assignments(c, c.p.assignments, before.vars);
      Module(r.vars, before.recorded + r.recorded)
  }

  ghost function AtLoad(c: Tracing): Module {
    Passes(c, |c.p.assignments| + 1)
  }

  /** Following one entry point. */
  ghost function Entry(c: Tracing, name: string, globals: Vars): Trace<Paths>
    requires name in c.p.functions
  {
    Enter(c, name, [], [], Places(iset{}, globals), {})
  }
}
