/**
 * What the analysis of a producer computes: the sources of each expression,
 * and the sources recorded as outputs on the way.
 *
 * `active` holds the functions whose bodies are being followed; the fuel
 * falls with every function entered, so that calls are followed to an end
 * even when functions call each other.
 */
module ProducerAnalysis {
  import opened Wrappers
  import opened Provenance
  import opened ProducerSyntax

  type Env = map<string, Sources>

  datatype State = State(env: Env, globals: Env)

  datatype Outcome<V> = Outcome(value: V, state: State, recorded: Sources)

  type Named = seq<(string, Sources)>

  function Look(env: Env, name: string): Sources {
    if name in env then env[name] else NOTHING
  }

  /** Keywords are kept in a dictionary: a later one replaces an earlier one of the same name. */
  function Find(values: Named, name: string): Option<Sources> {
    if values == [] then None
    else
      var later := Find(values[1..], name);
      if later.Some? then later else if values[0].0 == name then Some(values[0].1) else None
  }

  function ValuesOf(values: Named): seq<Sources> {
    if values == [] then []
    else (if Find(values[1..], values[0].0).None? then [values[0].1] else []) + ValuesOf(values[1..])
  }

  function AssignTo(target: Expr, value: Sources, env: Env): Env {
    match target
    case Name(id) => env[id := Merge(Look(env, id), value)]
    case Elements(elements) => AssignEach(elements, value, env)
    case _ => env
  }

  function AssignEach(targets: seq<Expr>, value: Sources, env: Env): Env {
    if targets == [] then env else AssignEach(targets[1..], value, AssignTo(targets[0], value, env))
  }

  function JoinInto(env: Env, branch: Env): Env {
    map name | name in env.Keys + branch.Keys ::
      if name in branch then Merge(Look(env, name), branch[name]) else env[name]
  }

  function Fuel(p: Program, follow: bool, active: set<string>): nat {
    if follow then 2 * |p.functions.Keys - active| + 2 else 0
  }

  lemma EnteringUsesFuel(p: Program, name: string, active: set<string>)
    requires name in p.functions.Keys && name !in active
    ensures Fuel(p, true, active + {name}) + 2 == Fuel(p, true, active)
  {
    assert p.functions.Keys - active == (p.functions.Keys - (active + {name})) + {name};
  }

  /** Whether anything the analysis does can change the module's variables. */
  ghost predicate KeepsGlobals(p: Program, follow: bool) {
    follow ==> WalrusFreeDefaults(p)
  }

  ghost function Expression(p: Program, e: Expr, s: State, follow: bool, active: set<string>): (r: Outcome<Sources>)
    ensures KeepsGlobals(p, follow) ==> r.state.globals == s.globals
    ensures !follow && WalrusFree(e) ==> r.state == s
    decreases Fuel(p, follow, active), e
  {
    match e
    case Empty => Outcome(NOTHING, s, NOTHING)
    case Text(text) => Outcome(Sources({text}, {}, map[]), s, NOTHING)
    case Name(id) => Outcome(Look(s.env, id), s, NOTHING)
    case Attribute(value, attr) =>
      var r := Expression(p, value, s, follow, active);
      r.(value := Provenance.Attribute(r.value, attr))
    case Call(callee, arguments, keywords) =>
      assert WalrusFree(e) && callee.Attribute? ==> WalrusFree(callee) && WalrusFree(callee.value);
      var receiver := if callee.Attribute? then Expression(p, callee.value, s, follow, active) else Outcome(NOTHING, s, NOTHING);
      var args := List(p, arguments, receiver.state, follow, active);
      var named := Keywords(p, keywords, args.state, follow, active);
      var recorded := Merge(Merge(receiver.recorded, args.recorded), named.recorded);
      if follow && callee.Name? && callee.id in p.functions then
        var returned := Enter(p, callee.id, args.value, named.value, named.state, active);
        var namespace := Namespace(p, p.functions[callee.id].declared, returned.state, map[], active);
        Outcome(Merge(returned.value, Sources({}, {}, namespace.value)), namespace.state,
                Merge(Merge(recorded, returned.recorded), namespace.recorded))
      else
        Outcome(MergeAll([receiver.value] + args.value + ValuesOf(named.value)), named.state,
                Merge(recorded, WrittenSources(WrittenBy(e), receiver.value, args.value)))
    case Walrus(target, value) =>
      var r := Expression(p, value, s, follow, active);
      r.(state := r.state.(env := AssignTo(target, r.value, r.state.env)))
    case Elements(elements) =>
      var r := List(p, elements, s, follow, active);
      Outcome(MergeAll(r.value), r.state, r.recorded)
    case Compound(children) =>
      var r := List(p, children, s, follow, active);
      Outcome(MergeAll(r.value), r.state, r.recorded)
  }

  function WrittenSources(w: Written, receiver: Sources, arguments: seq<Sources>): Sources {
    match w
    case Receiver => receiver
    case PositionalArgument(i) => if i < |arguments| then arguments[i] else NOTHING
    case Nowhere => NOTHING
  }

  ghost function List(p: Program, es: seq<Expr>, s: State, follow: bool, active: set<string>): (r: Outcome<seq<Sources>>)
    ensures |r.value| == |es|
    ensures KeepsGlobals(p, follow) ==> r.state.globals == s.globals
    ensures !follow && (forall e :: e in es ==> WalrusFree(e)) ==> r.state == s
    decreases Fuel(p, follow, active), es
  {
    if es == [] then Outcome([], s, NOTHING)
    else
      var first := Expression(p, es[0], s, follow, active);
      var rest := List(p, es[1..], first.state, follow, active);
      Outcome([first.value] + rest.value, rest.state, Merge(first.recorded, rest.recorded))
  }

  ghost function Keywords(p: Program, ks: seq<Keyword>, s: State, follow: bool, active: set<string>): (r: Outcome<Named>)
    ensures KeepsGlobals(p, follow) ==> r.state.globals == s.globals
    ensures !follow && (forall k :: k in ks ==> WalrusFree(k.value)) ==> r.state == s
    decreases Fuel(p, follow, active), ks
  {
    if ks == [] then Outcome([], s, NOTHING)
    else if ks[0].name.None? then Keywords(p, ks[1..], s, follow, active)
    else
      var k := ks[0];
      assert k.value < k;
      var first := Expression(p, k.value, s, follow, active);
      var rest := Keywords(p, ks[1..], first.state, follow, active);
      Outcome([(k.name.value, first.value)] + rest.value, rest.state, Merge(first.recorded, rest.recorded))
  }

  /** The attributes of the namespace that the declared arguments are parsed into. */
  ghost function Namespace(p: Program, declared: seq<Argument>, s: State, attributes: Env, active: set<string>): (r: Outcome<Env>)
    ensures r.state.env == s.env
    ensures (forall a :: a in declared && a.default.Some? ==> WalrusFree(a.default.value)) ==> r.state == s
    decreases 1, |declared|
  {
    if declared == [] then Outcome(attributes, s, NOTHING)
    else
      var a := declared[0];
      var name := Destination(a);
      if name == "" then Namespace(p, declared[1..], s, attributes, active)
      else
        var default := if a.default.Some? then Expression(p, a.default.value, State(s.globals, s.globals), false, active)
                       else Outcome(NOTHING, State(s.globals, s.globals), NOTHING);
        var value := Merge(Merge(Look(attributes, name), default.value), Sources({}, Options(a.names), map[]));
        var rest := Namespace(p, declared[1..], State(s.env, default.state.env), attributes[name := value], active);
        rest.(recorded := Merge(default.recorded, rest.recorded))
  }

  function Options(names: seq<string>): set<string> {
    set name | name in names && StartsWith(name, "-")
  }

  /** The variables a function starts with. */
  ghost function Bind(p: Program, parameters: seq<Parameter>, arguments: seq<Sources>, named: Named, s: State, active: set<string>): (r: Outcome<()>)
    ensures r.state.globals == s.globals
    decreases 1, |parameters|
  {
    if parameters == [] then Outcome((), s, NOTHING)
    else
      var first := parameters[0];
      var given := if arguments != [] then Some(arguments[0]) else Find(named, first.name);
      var default := if given.None? && first.default.Some? then Expression(p, first.default.value, s, false, active)
                     else Outcome(if given.Some? then given.value else NOTHING, s, NOTHING);
      var rest := Bind(p, parameters[1..], if arguments != [] then arguments[1..] else [], named,
                       default.state.(env := default.state.env[first.name := default.value]), active);
      rest.(recorded := Merge(default.recorded, rest.recorded))
  }

  /** Following a call: nothing while the function is already being followed. */
  ghost function Enter(p: Program, name: string, arguments: seq<Sources>, named: Named, s: State, active: set<string>): (r: Outcome<Sources>)
    requires name in p.functions
    ensures r.state.env == s.env
    ensures KeepsGlobals(p, true) ==> r.state.globals == s.globals
    decreases Fuel(p, true, active) - 1, 0
  {
    if name in active then Outcome(NOTHING, s, NOTHING)
    else
      EnteringUsesFuel(p, name, active);
      var bound := Bind(p, p.functions[name].parameters, arguments, named, State(s.globals, s.globals), active);
      var r := Block(p, p.functions[name].body, bound.state, active + {name});
      Outcome(r.value, State(s.env, r.state.globals), Merge(bound.recorded, r.recorded))
  }

  ghost function Block(p: Program, stmts: seq<Stmt>, s: State, active: set<string>): (r: Outcome<Sources>)
    ensures KeepsGlobals(p, true) ==> r.state.globals == s.globals
    decreases Fuel(p, true, active), stmts, 0
  {
    if stmts == [] then Outcome(NOTHING, s, NOTHING)
    else
      var first := Statement(p, stmts[0], s, active);
      var rest := Block(p, stmts[1..], first.state, active);
      Outcome(Merge(first.value, rest.value), rest.state, Merge(first.recorded, rest.recorded))
  }

  ghost function Blocks(p: Program, blocks: seq<Suite>, s: State, active: set<string>): (r: Outcome<Sources>)
    ensures r.state.env == s.env
    ensures KeepsGlobals(p, true) ==> r.state.globals == s.globals
    decreases Fuel(p, true, active), blocks
  {
    if blocks == [] then Outcome(NOTHING, s, NOTHING)
    else
      var suite := blocks[0];
      var first := Block(p, suite.stmts, s, active);
      var rest := Blocks(p, blocks[1..], State(s.env, first.state.globals), active);
      Outcome(Merge(first.value, rest.value), rest.state, Merge(first.recorded, rest.recorded))
  }

  /** The items of a with statement: evaluated outside, assigned to the inner variables. */
  ghost function Items(p: Program, items: seq<Item>, s: State, inner: Env, active: set<string>): (r: Outcome<Env>)
    ensures KeepsGlobals(p, true) ==> r.state.globals == s.globals
    decreases Fuel(p, true, active), items
  {
    if items == [] then Outcome(inner, s, NOTHING)
    else
      var item := items[0];
      assert item.context < item;
      var first := Expression(p, item.context, s, true, active);
      var bound := if item.target.Some? then AssignTo(item.target.value, first.value, inner) else inner;
      var rest := Items(p, items[1..], first.state, bound, active);
      rest.(recorded := Merge(first.recorded, rest.recorded))
  }

  /** One branch on a copy of the variables, joined back into them. */
  ghost function Joined(p: Program, stmts: seq<Stmt>, s: State, active: set<string>): (r: Outcome<Sources>)
    ensures KeepsGlobals(p, true) ==> r.state.globals == s.globals
    decreases Fuel(p, true, active), stmts, 1
  {
    var r := Block(p, stmts, s, active);
    r.(state := State(JoinInto(s.env, r.state.env), r.state.globals))
  }

  ghost function Statement(p: Program, stmt: Stmt, s: State, active: set<string>): (r: Outcome<Sources>)
    ensures KeepsGlobals(p, true) ==> r.state.globals == s.globals
    decreases Fuel(p, true, active), stmt
  {
    match stmt
    case Assign(targets, value) =>
      var r := Expression(p, value, s, true, active);
      Outcome(NOTHING, r.state.(env := AssignEach(targets, r.value, r.state.env)), r.recorded)
    case AugAssign(target, value) =>
      var left := Expression(p, target, s, true, active);
      var right := Expression(p, value, left.state, true, active);
      Outcome(NOTHING, right.state.(env := AssignTo(target, Merge(left.value, right.value), right.state.env)),
              Merge(left.recorded, right.recorded))
    case Evaluate(value) =>
      Expression(p, value, s, true, active).(value := NOTHING)
    case Return(value) =>
      Expression(p, value, s, true, active)
    case For(target, iter, body, orelse) =>
      var over := Expression(p, iter, s, true, active);
      var first := Block(p, body, State(AssignTo(target, over.value, s.env), over.state.globals), active);
      var second := Block(p, orelse, first.state, active);
      Outcome(Merge(first.value, second.value),
              State(JoinInto(over.state.env, second.state.env), second.state.globals),
              Merge(Merge(over.recorded, first.recorded), second.recorded))
    case Branch(test, body, orelse) =>
      var tested := Expression(p, test, s, true, active);
      var first := Joined(p, body, tested.state, active);
      var second := Joined(p, orelse, first.state, active);
      Outcome(Merge(first.value, second.value), second.state,
              Merge(Merge(tested.recorded, first.recorded), second.recorded))
    case With(items, body) =>
      var entered := Items(p, items, s, s.env, active);
      var inner := Block(p, body, State(entered.value, entered.state.globals), active);
      Outcome(inner.value, State(entered.state.env, inner.state.globals), Merge(entered.recorded, inner.recorded))
    case Try(blocks) =>
      Blocks(p, blocks, s, active)
    case Other =>
      Outcome(NOTHING, s, NOTHING)
  }
}
