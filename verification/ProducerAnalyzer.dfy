/** The analyzer: walks a producer's syntax tree, changing its own state on the way. */
module ProducerAnalyzer {
  import opened Wrappers
  import opened Provenance
  import opened ProducerSyntax
  import Spec = ProducerAnalysis
  import ModuleSources
  import opened ProducerEvidence
  import ProducerReach

  type Env = Spec.Env

  type Named = Spec.Named

  class Analyzer {
    const program: Program
    var moduleSources: Env
    var outputSources: Sources
    var activeFunctions: set<string>

    constructor (p: Program)
      ensures program == p && activeFunctions == {}
      ensures moduleSources == ModuleSources.Load(p).env && outputSources == ModuleSources.Load(p).recorded
    {
      program := p;
      moduleSources := map[];
      outputSources := NOTHING;
      activeFunctions := {};
      new;
      LoadModuleSources();
      MergeNothing(outputSources);
    }

    /** What the analyzer did since the old state is what the specification says. */
    twostate predicate Did<V>(new r: Spec.Outcome<V>)
      reads this
    {
      && activeFunctions == old(activeFunctions)
      && moduleSources == r.state.globals
      && outputSources == Merge(old(outputSources), r.recorded)
    }

    method RecordOutput(sources: Sources)
      modifies this`outputSources
      ensures outputSources == Merge(old(outputSources), sources)
    {
      outputSources := Merge(outputSources, sources);
    }

    method LoadModuleSources()
      requires activeFunctions == {}
      modifies this
      ensures activeFunctions == {}
      ensures var r := ModuleSources.LoadPasses(program, old(moduleSources), |program.assignments| + 1);
              moduleSources == r.env && outputSources == Merge(old(outputSources), r.recorded)
    {
      hide Merge;
      hide ModuleSources.AssignAll;
      ghost var recorded := NOTHING;
      MergeNothing(outputSources);
      var passes := |program.assignments| + 1;
      ghost var whole := ModuleSources.LoadPasses(program, moduleSources, passes);
      MergeNothing(whole.recorded);
      for k := 0 to passes
        invariant activeFunctions == {}
        invariant outputSources == Merge(old(outputSources), recorded)
        invariant var rest := ModuleSources.LoadPasses(program, moduleSources, passes - k);
                  whole.env == rest.env && whole.recorded == Merge(recorded, rest.recorded)
      {
        var before := moduleSources;
        ghost var r := ModuleSources.AssignAll(program, program.assignments, before);
        ghost var rest := ModuleSources.LoadPasses(program, r.env, passes - k - 1);
        RunAssignments();
        MergeIsAssociative(old(outputSources), recorded, r.recorded);
        MergeIsAssociative(recorded, r.recorded, rest.recorded);
        recorded := Merge(recorded, r.recorded);
        if moduleSources == before {
          return;
        }
      }
      MergeNothing(recorded);
    }

    /** One pass over the module's assignments, on the module's own variables. */
    method RunAssignments()
      requires activeFunctions == {}
      modifies this
      ensures activeFunctions == {}
      ensures var r := ModuleSources.AssignAll(program, program.assignments, old(moduleSources));
              moduleSources == r.env && outputSources == Merge(old(outputSources), r.recorded)
    {
      ghost var recorded := NOTHING;
      MergeNothing(outputSources);
      ghost var whole := ModuleSources.AssignAll(program, program.assignments, moduleSources);
      MergeNothing(whole.recorded);
      assert program.assignments[0..] == program.assignments;
      for i := 0 to |program.assignments|
        invariant activeFunctions == {}
        invariant outputSources == Merge(old(outputSources), recorded)
        invariant var rest := ModuleSources.AssignAll(program, program.assignments[i..], moduleSources);
                  whole.env == rest.env && whole.recorded == Merge(recorded, rest.recorded)
      {
        var statement := program.assignments[i];
        ghost var r := Spec.Expression(program, statement.value, Spec.State(moduleSources, moduleSources), false, {});
        ghost var rest := ModuleSources.AssignAll(program, program.assignments[i + 1..], Spec.AssignEach(statement.targets, r.value, r.state.env));
        assert program.assignments[i..][1..] == program.assignments[i + 1..];
        MergeIsAssociative(old(outputSources), recorded, r.recorded);
        MergeIsAssociative(recorded, r.recorded, rest.recorded);
        var value, after := Expression(statement.value, moduleSources, false);
        moduleSources := Spec.AssignEach(statement.targets, value, after);
        recorded := Merge(recorded, r.recorded);
      }
      MergeNothing(recorded);
    }

    /**
     * Follows the entry points in any order. What is recorded in the end is
     * the least value that includes what each of them records on its own, so
     * the order does not matter.  Nothing is recorded that is not written in
     * the producer.
     */
    method Analyze(entrypoints: set<string>) returns (ghost order: seq<string>)
      requires entrypoints <= program.functions.Keys && activeFunctions == {}
      modifies this
      ensures activeFunctions == {}
      ensures forall name :: name in order <==> name in entrypoints
      ensures var r := ProducerReach.FollowAll(program, order, old(moduleSources));
              moduleSources == r.env && outputSources == Merge(old(outputSources), r.recorded)
      ensures WalrusFreeDefaults(program) ==> moduleSources == old(moduleSources)
      ensures WalrusFreeDefaults(program) ==> Collected(outputSources, old(outputSources), program, entrypoints, old(moduleSources))
      ensures forall u :: ProgramIn(program, u) && EnvFrom(old(moduleSources), u) && From(old(outputSources), u) ==> From(outputSources, u)
    {
      hide Spec.Enter, Merge, From, EnvFrom, ProgramIn, AllFrom, NamedFrom;
      var rest, done := entrypoints, {};
      order := [];
      MergeNothing(outputSources);
      while rest != {}
        invariant rest + done == entrypoints && activeFunctions == {}
        invariant forall name :: name in order <==> name in done
        invariant var r := ProducerReach.FollowAll(program, order, old(moduleSources));
                  moduleSources == r.env && outputSources == Merge(old(outputSources), r.recorded)
        invariant WalrusFreeDefaults(program) ==> moduleSources == old(moduleSources)
        invariant WalrusFreeDefaults(program) ==> Collected(outputSources, old(outputSources), program, done, old(moduleSources))
        invariant forall u :: ProgramIn(program, u) && EnvFrom(old(moduleSources), u) && From(old(outputSources), u)
                    ==> EnvFrom(moduleSources, u) && From(outputSources, u)
        decreases rest
      {
        var name :| name in rest;
        ghost var before, globals := outputSources, moduleSources;
        ghost var recorded := ProducerReach.FollowAll(program, order, old(moduleSources)).recorded;
        MergeIsAssociative(old(outputSources), recorded, Recorded(program, name, globals));
        assert (order + [name])[..|order|] == order;
        var returned := Enter(name, [], [], map[]);
        order := order + [name];
        rest, done := rest - {name}, done + {name};
        forall c ensures Includes(c, outputSources) <==> Includes(c, before) && Includes(c, Recorded(program, name, globals)) {
          MergeIsLeast(before, Recorded(program, name, globals), c);
        }
        forall u | ProgramIn(program, u) && EnvFrom(globals, u) && From(before, u)
          ensures EnvFrom(moduleSources, u) && From(outputSources, u)
        {
          EntryFrom(program, name, globals, u);
          MergeFrom(before, Recorded(program, name, globals), u);
        }
      }
    }

    // Expressions. The variables that a Python dictionary holds are passed in and handed back changed.

    method Expression(e: Expr, env: Env, follow: bool) returns (value: Sources, after: Env)
      modifies this
      ensures var r := Spec.Expression(program, e, Spec.State(env, old(moduleSources)), follow, old(activeFunctions));
              value == r.value && after == r.state.env && Did(r)
      decreases Spec.Fuel(program, follow, activeFunctions), e, 1
    {
      MergeNothing(outputSources);
      match e {
        case Empty => value, after := NOTHING, env;
        case Text(text) => value, after := Sources({text}, {}, map[]), env;
        case Name(id) => value, after := Spec.Look(env, id), env;
        case Attribute(inner, attr) =>
          value, after := Expression(inner, env, follow);
          value := Provenance.Attribute(value, attr);
        case Call(_, _, _) =>
          value, after := Call(e, env, follow);
        case Walrus(target, inner) =>
          value, after := Expression(inner, env, follow);
          after := Spec.AssignTo(target, value, after);
        case Elements(elements) =>
          var values;
          values, after := List(elements, env, follow);
          value := MergeAll(values);
        case Compound(children) =>
          var values;
          values, after := List(children, env, follow);
          value := MergeAll(values);
      }
    }

    method Call(call: Expr, env: Env, follow: bool) returns (value: Sources, after: Env)
      requires call.Call?
      modifies this
      ensures var r := Spec.Expression(program, call, Spec.State(env, old(moduleSources)), follow, old(activeFunctions));
              value == r.value && after == r.state.env && Did(r)
      decreases Spec.Fuel(program, follow, activeFunctions), call, 0
    {
      hide Merge, MergeAll, Spec.List, Spec.Keywords, Spec.Enter, Spec.Namespace;
      ghost var active := activeFunctions;
      ghost var on := if call.callee.Attribute? then Spec.Expression(program, call.callee.value, Spec.State(env, moduleSources), follow, active)
                      else Spec.Outcome(NOTHING, Spec.State(env, moduleSources), NOTHING);
      ghost var args := Spec.List(program, call.arguments, on.state, follow, active);
      ghost var keys := Spec.Keywords(program, call.keywords, args.state, follow, active);
      ghost var recorded := Merge(Merge(on.recorded, args.recorded), keys.recorded);
      MergeNothing(outputSources);
      MergeIsAssociative(outputSources, on.recorded, args.recorded);
      MergeIsAssociative(outputSources, Merge(on.recorded, args.recorded), keys.recorded);
      var receiver := NOTHING;
      after := env;
      if call.callee.Attribute? {
        receiver, after := Expression(call.callee.value, env, follow);
      }
      var arguments, named;
      arguments, after := List(call.arguments, after, follow);
      named, after := Keywords(call.keywords, after, follow);
      assert outputSources == Merge(old(outputSources), recorded);
      MergeNothing(recorded);
      if follow && call.callee.Name? && call.callee.id in program.functions {
        ghost var entered := Spec.Enter(program, call.callee.id, args.value, keys.value, keys.state, active);
        ghost var space := Spec.Namespace(program, program.functions[call.callee.id].declared, entered.state, map[], active);
        MergeIsAssociative(old(outputSources), recorded, entered.recorded);
        MergeIsAssociative(old(outputSources), Merge(recorded, entered.recorded), space.recorded);
        var returned := Enter(call.callee.id, arguments, named, after);
        var namespace := Namespace(program.functions[call.callee.id].declared, after);
        value := Merge(returned, Sources({}, {}, namespace));
      } else {
        var written := WrittenBy(call);
        MergeIsAssociative(old(outputSources), recorded, Spec.WrittenSources(written, receiver, arguments));
        if !written.Nowhere? {
          RecordOutput(Spec.WrittenSources(written, receiver, arguments));
        }
        value := MergeAll([receiver] + arguments + Spec.ValuesOf(named));
      }
    }

    method List(es: seq<Expr>, env: Env, follow: bool) returns (values: seq<Sources>, after: Env)
      modifies this
      ensures var r := Spec.List(program, es, Spec.State(env, old(moduleSources)), follow, old(activeFunctions));
              values == r.value && after == r.state.env && Did(r)
      decreases Spec.Fuel(program, follow, activeFunctions), es
    {
      hide Merge, Spec.Expression;
      values, after := [], env;
      ghost var active := activeFunctions;
      ghost var whole := Spec.List(program, es, Spec.State(env, moduleSources), follow, active);
      ghost var recorded := NOTHING;
      MergeNothing(outputSources);
      MergeNothing(whole.recorded);
      assert es[0..] == es;
      assert [] + whole.value == whole.value;
      for i := 0 to |es|
        invariant activeFunctions == active
        invariant outputSources == Merge(old(outputSources), recorded)
        invariant var rest := Spec.List(program, es[i..], Spec.State(after, moduleSources), follow, active);
                  whole == Spec.Outcome(values + rest.value, rest.state, Merge(recorded, rest.recorded))
      {
        ghost var r := Spec.Expression(program, es[i], Spec.State(after, moduleSources), follow, active);
        ghost var rest := Spec.List(program, es[i + 1..], r.state, follow, active);
        assert es[i..][0] == es[i] && es[i..][1..] == es[i + 1..];
        assert values + ([r.value] + rest.value) == values + [r.value] + rest.value;
        MergeIsAssociative(old(outputSources), recorded, r.recorded);
        MergeIsAssociative(recorded, r.recorded, rest.recorded);
        var value;
        value, after := Expression(es[i], after, follow);
        values := values + [value];
        recorded := Merge(recorded, r.recorded);
      }
      MergeNothing(recorded);
    }

    method Keywords(ks: seq<Keyword>, env: Env, follow: bool) returns (named: Named, after: Env)
      modifies this
      ensures var r := Spec.Keywords(program, ks, Spec.State(env, old(moduleSources)), follow, old(activeFunctions));
              named == r.value && after == r.state.env && Did(r)
      decreases Spec.Fuel(program, follow, activeFunctions), ks
    {
      hide Merge, Spec.Expression;
      named, after := [], env;
      ghost var active := activeFunctions;
      ghost var whole := Spec.Keywords(program, ks, Spec.State(env, moduleSources), follow, active);
      ghost var recorded := NOTHING;
      MergeNothing(outputSources);
      MergeNothing(whole.recorded);
      assert ks[0..] == ks;
      assert [] + whole.value == whole.value;
      for i := 0 to |ks|
        invariant activeFunctions == active
        invariant outputSources == Merge(old(outputSources), recorded)
        invariant var rest := Spec.Keywords(program, ks[i..], Spec.State(after, moduleSources), follow, active);
                  whole == Spec.Outcome(named + rest.value, rest.state, Merge(recorded, rest.recorded))
      {
        var k := ks[i];
        assert ks[i..][0] == k && ks[i..][1..] == ks[i + 1..];
        if k.name.Some? {
          assert k.value < k;
          ghost var r := Spec.Expression(program, k.value, Spec.State(after, moduleSources), follow, active);
          ghost var rest := Spec.Keywords(program, ks[i + 1..], r.state, follow, active);
          assert named + ([(k.name.value, r.value)] + rest.value) == named + [(k.name.value, r.value)] + rest.value;
          MergeIsAssociative(old(outputSources), recorded, r.recorded);
          MergeIsAssociative(recorded, r.recorded, rest.recorded);
          var value;
          value, after := Expression(k.value, after, follow);
          named := named + [(k.name.value, value)];
          recorded := Merge(recorded, r.recorded);
        }
      }
      MergeNothing(recorded);
    }

    /** The namespace of the arguments a function declares; defaults see, and may assign, the module's variables. */
    method Namespace(declared: seq<Argument>, ghost env: Env) returns (attributes: Env)
      modifies this
      ensures var r := Spec.Namespace(program, declared, Spec.State(env, old(moduleSources)), map[], old(activeFunctions));
              attributes == r.value && Did(r)
      decreases 1
    {
      hide Merge, Destination, Spec.Expression, Spec.Options, WalrusFree, Spec.Look;
      attributes := map[];
      ghost var active := activeFunctions;
      ghost var whole := Spec.Namespace(program, declared, Spec.State(env, moduleSources), map[], active);
      ghost var recorded := NOTHING;
      MergeNothing(outputSources);
      MergeNothing(whole.recorded);
      assert declared[0..] == declared;
      for i := 0 to |declared|
        invariant activeFunctions == active
        invariant outputSources == Merge(old(outputSources), recorded)
        invariant var rest := Spec.Namespace(program, declared[i..], Spec.State(env, moduleSources), attributes, active);
                  whole == Spec.Outcome(rest.value, rest.state, Merge(recorded, rest.recorded))
      {
        var a := declared[i];
        assert declared[i..][0] == a && declared[i..][1..] == declared[i + 1..];
        var name := Destination(a);
        if name != "" {
          ghost var before := Spec.State(moduleSources, moduleSources);
          ghost var r := if a.default.Some? then Spec.Expression(program, a.default.value, before, false, active)
                         else Spec.Outcome(NOTHING, before, NOTHING);
          var default := NOTHING;
          MergeNothing(recorded);
          MergeIsAssociative(old(outputSources), recorded, r.recorded);
          if a.default.Some? {
            var after;
            default, after := Expression(a.default.value, moduleSources, false);
            moduleSources := after;
          }
          attributes := attributes[name := Merge(Merge(Spec.Look(attributes, name), default), Sources({}, Spec.Options(a.names), map[]))];
          ghost var rest := Spec.Namespace(program, declared[i + 1..], Spec.State(env, moduleSources), attributes, active);
          MergeIsAssociative(recorded, r.recorded, rest.recorded);
          recorded := Merge(recorded, r.recorded);
        }
      }
      MergeNothing(recorded);
    }

    method Bind(parameters: seq<Parameter>, arguments: seq<Sources>, named: Named) returns (env: Env)
      modifies this
      ensures var r := Spec.Bind(program, parameters, arguments, named, Spec.State(old(moduleSources), old(moduleSources)), old(activeFunctions));
              env == r.state.env && Did(r)
      decreases 1
    {
      hide Merge, Spec.Expression;
      env := moduleSources;
      ghost var active := activeFunctions;
      ghost var whole := Spec.Bind(program, parameters, arguments, named, Spec.State(env, moduleSources), active);
      ghost var recorded := NOTHING;
      MergeNothing(outputSources);
      MergeNothing(whole.recorded);
      assert parameters[0..] == parameters;
      assert Beyond(arguments, 0) == arguments && whole.value == ();
      for i := 0 to |parameters|
        invariant activeFunctions == active && moduleSources == old(moduleSources)
        invariant outputSources == Merge(old(outputSources), recorded)
        invariant var rest := Spec.Bind(program, parameters[i..], Beyond(arguments, i), named, Spec.State(env, moduleSources), active);
                  whole == Spec.Outcome((), rest.state, Merge(recorded, rest.recorded))
      {
        var parameter := parameters[i];
        assert parameters[i..][0] == parameter && parameters[i..][1..] == parameters[i + 1..];
        BeyondNext(arguments, i);
        var given := if i < |arguments| then Some(arguments[i]) else Spec.Find(named, parameter.name);
        ghost var before := Spec.State(env, moduleSources);
        ghost var r := if given.None? && parameter.default.Some? then Spec.Expression(program, parameter.default.value, before, false, active)
                       else Spec.Outcome(if given.Some? then given.value else NOTHING, before, NOTHING);
        MergeNothing(recorded);
        MergeIsAssociative(old(outputSources), recorded, r.recorded);
        var value := if given.Some? then given.value else NOTHING;
        if given.None? && parameter.default.Some? {
          value, env := Expression(parameter.default.value, env, false);
        }
        env := env[parameter.name := value];
        ghost var rest := Spec.Bind(program, parameters[i + 1..], Beyond(arguments, i + 1), named, Spec.State(env, moduleSources), active);
        MergeIsAssociative(recorded, r.recorded, rest.recorded);
        recorded := Merge(recorded, r.recorded);
      }
      MergeNothing(recorded);
    }

    /** Follows a call, unless the function is already being followed, and is then done with the function. */
    method Enter(name: string, arguments: seq<Sources>, named: Named, ghost env: Env) returns (value: Sources)
      requires name in program.functions
      modifies this
      ensures var r := Spec.Enter(program, name, arguments, named, Spec.State(env, old(moduleSources)), old(activeFunctions));
              value == r.value && Did(r)
      decreases Spec.Fuel(program, true, activeFunctions) - 1, 0
    {
      MergeNothing(outputSources);
      if name in activeFunctions {
        return NOTHING;
      }
      Spec.EnteringUsesFuel(program, name, activeFunctions);
      ghost var active := activeFunctions;
      ghost var bound := Spec.Bind(program, program.functions[name].parameters, arguments, named, Spec.State(moduleSources, moduleSources), active);
      ghost var r := Spec.Block(program, program.functions[name].body, bound.state, active + {name});
      MergeIsAssociative(outputSources, bound.recorded, r.recorded);
      var inner := Bind(program.functions[name].parameters, arguments, named);
      activeFunctions := activeFunctions + {name};
      value, inner := Block(program.functions[name].body, inner);
      activeFunctions := activeFunctions - {name};
    }

    // Statements.

    method Block(stmts: seq<Stmt>, env: Env) returns (returned: Sources, after: Env)
      modifies this
      ensures var r := Spec.Block(program, stmts, Spec.State(env, old(moduleSources)), old(activeFunctions));
              returned == r.value && after == r.state.env && Did(r)
      decreases Spec.Fuel(program, true, activeFunctions), stmts, 0
    {
      hide Merge;
      returned, after := NOTHING, env;
      ghost var active := activeFunctions;
      ghost var whole := Spec.Block(program, stmts, Spec.State(env, moduleSources), active);
      ghost var recorded := NOTHING;
      MergeNothing(outputSources);
      MergeNothing(whole.recorded);
      MergeNothing(whole.value);
      assert stmts[0..] == stmts;
      for i := 0 to |stmts|
        invariant activeFunctions == active
        invariant outputSources == Merge(old(outputSources), recorded)
        invariant var rest := Spec.Block(program, stmts[i..], Spec.State(after, moduleSources), active);
                  whole == Spec.Outcome(Merge(returned, rest.value), rest.state, Merge(recorded, rest.recorded))
      {
        ghost var r := Spec.Statement(program, stmts[i], Spec.State(after, moduleSources), active);
        ghost var rest := Spec.Block(program, stmts[i + 1..], r.state, active);
        assert stmts[i..][0] == stmts[i] && stmts[i..][1..] == stmts[i + 1..];
        MergeIsAssociative(old(outputSources), recorded, r.recorded);
        MergeIsAssociative(recorded, r.recorded, rest.recorded);
        MergeIsAssociative(returned, r.value, rest.value);
        var value;
        value, after := Statement(stmts[i], after);
        returned := Merge(returned, value);
        recorded := Merge(recorded, r.recorded);
      }
      MergeNothing(recorded);
      MergeNothing(returned);
    }

    method Blocks(blocks: seq<Suite>, env: Env) returns (returned: Sources)
      modifies this
      ensures var r := Spec.Blocks(program, blocks, Spec.State(env, old(moduleSources)), old(activeFunctions));
              returned == r.value && Did(r)
      decreases Spec.Fuel(program, true, activeFunctions), blocks
    {
      hide Merge;
      returned := NOTHING;
      ghost var active := activeFunctions;
      ghost var whole := Spec.Blocks(program, blocks, Spec.State(env, moduleSources), active);
      ghost var recorded := NOTHING;
      MergeNothing(outputSources);
      MergeNothing(whole.recorded);
      MergeNothing(whole.value);
      assert blocks[0..] == blocks;
      for i := 0 to |blocks|
        invariant activeFunctions == active
        invariant outputSources == Merge(old(outputSources), recorded)
        invariant var rest := Spec.Blocks(program, blocks[i..], Spec.State(env, moduleSources), active);
                  whole == Spec.Outcome(Merge(returned, rest.value), rest.state, Merge(recorded, rest.recorded))
      {
        var suite := blocks[i];
        ghost var r := Spec.Block(program, suite.stmts, Spec.State(env, moduleSources), active);
        ghost var rest := Spec.Blocks(program, blocks[i + 1..], Spec.State(env, r.state.globals), active);
        assert blocks[i..][0] == blocks[i] && blocks[i..][1..] == blocks[i + 1..];
        MergeIsAssociative(old(outputSources), recorded, r.recorded);
        MergeIsAssociative(recorded, r.recorded, rest.recorded);
        MergeIsAssociative(returned, r.value, rest.value);
        var value, after := Block(suite.stmts, env);
        returned := Merge(returned, value);
        recorded := Merge(recorded, r.recorded);
      }
      MergeNothing(recorded);
      MergeNothing(returned);
    }

    method Items(items: seq<Item>, env: Env) returns (inner: Env, after: Env)
      modifies this
      ensures var r := Spec.Items(program, items, Spec.State(env, old(moduleSources)), env, old(activeFunctions));
              inner == r.value && after == r.state.env && Did(r)
      decreases Spec.Fuel(program, true, activeFunctions), items
    {
      hide Merge, Spec.Expression;
      inner, after := env, env;
      ghost var active := activeFunctions;
      ghost var whole := Spec.Items(program, items, Spec.State(env, moduleSources), env, active);
      ghost var recorded := NOTHING;
      MergeNothing(outputSources);
      MergeNothing(whole.recorded);
      assert items[0..] == items;
      for i := 0 to |items|
        invariant activeFunctions == active
        invariant outputSources == Merge(old(outputSources), recorded)
        invariant var rest := Spec.Items(program, items[i..], Spec.State(after, moduleSources), inner, active);
                  whole == Spec.Outcome(rest.value, rest.state, Merge(recorded, rest.recorded))
      {
        var item := items[i];
        assert item.context < item;
        ghost var r := Spec.Expression(program, item.context, Spec.State(after, moduleSources), true, active);
        assert items[i..][0] == item && items[i..][1..] == items[i + 1..];
        MergeIsAssociative(old(outputSources), recorded, r.recorded);
        var value;
        value, after := Expression(item.context, after, true);
        if item.target.Some? {
          inner := Spec.AssignTo(item.target.value, value, inner);
        }
        ghost var rest := Spec.Items(program, items[i + 1..], Spec.State(after, moduleSources), inner, active);
        MergeIsAssociative(recorded, r.recorded, rest.recorded);
        recorded := Merge(recorded, r.recorded);
      }
      MergeNothing(recorded);
    }

    method Statement(stmt: Stmt, env: Env) returns (returned: Sources, after: Env)
      modifies this
      ensures var r := Spec.Statement(program, stmt, Spec.State(env, old(moduleSources)), old(activeFunctions));
              returned == r.value && after == r.state.env && Did(r)
      decreases Spec.Fuel(program, true, activeFunctions), stmt
    {
      MergeNothing(outputSources);
      match stmt {
        case Assign(targets, source) =>
          var value;
          value, after := Expression(source, env, true);
          after := Spec.AssignEach(targets, value, after);
          returned := NOTHING;
        case AugAssign(target, source) =>
          returned, after := AugAssignment(stmt, env);
        case Evaluate(source) =>
          returned, after := Expression(source, env, true);
          returned := NOTHING;
        case Return(source) =>
          returned, after := Expression(source, env, true);
        case For(_, _, _, _) =>
          returned, after := ForLoop(stmt, env);
        case Branch(_, _, _) =>
          returned, after := Branches(stmt, env);
        case With(items, body) =>
          returned, after := Within(stmt, env);
        case Try(blocks) =>
          returned := Blocks(blocks, env);
          after := env;
        case Other =>
          returned, after := NOTHING, env;
      }
    }

    method AugAssignment(stmt: Stmt, env: Env) returns (returned: Sources, after: Env)
      requires stmt.AugAssign?
      modifies this
      ensures var r := Spec.Statement(program, stmt, Spec.State(env, old(moduleSources)), old(activeFunctions));
              returned == r.value && after == r.state.env && Did(r)
      decreases Spec.Fuel(program, true, activeFunctions), stmt, 0
    {
      ghost var left := Spec.Expression(program, stmt.target, Spec.State(env, moduleSources), true, activeFunctions);
      ghost var right := Spec.Expression(program, stmt.value, left.state, true, activeFunctions);
      MergeIsAssociative(outputSources, left.recorded, right.recorded);
      var first, second;
      first, after := Expression(stmt.target, env, true);
      second, after := Expression(stmt.value, after, true);
      after := Spec.AssignTo(stmt.target, Merge(first, second), after);
      returned := NOTHING;
    }

    method ForLoop(stmt: Stmt, env: Env) returns (returned: Sources, after: Env)
      requires stmt.For?
      modifies this
      ensures var r := Spec.Statement(program, stmt, Spec.State(env, old(moduleSources)), old(activeFunctions));
              returned == r.value && after == r.state.env && Did(r)
      decreases Spec.Fuel(program, true, activeFunctions), stmt, 0
    {
      hide Merge, Spec.Expression, Spec.Block, Spec.JoinInto, Spec.AssignTo;
      ghost var active := activeFunctions;
      ghost var over := Spec.Expression(program, stmt.iter, Spec.State(env, moduleSources), true, active);
      ghost var first := Spec.Block(program, stmt.body, Spec.State(Spec.AssignTo(stmt.target, over.value, env), over.state.globals), active);
      ghost var second := Spec.Block(program, stmt.orelse, first.state, active);
      MergeIsAssociative(outputSources, over.recorded, first.recorded);
      MergeIsAssociative(outputSources, Merge(over.recorded, first.recorded), second.recorded);
      var value, inner, more;
      value, after := Expression(stmt.iter, env, true);
      inner := Spec.AssignTo(stmt.target, value, env);
      returned, inner := Block(stmt.body, inner);
      more, inner := Block(stmt.orelse, inner);
      returned := Merge(returned, more);
      after := Spec.JoinInto(after, inner);
    }

    method Branches(stmt: Stmt, env: Env) returns (returned: Sources, after: Env)
      requires stmt.Branch?
      modifies this
      ensures var r := Spec.Statement(program, stmt, Spec.State(env, old(moduleSources)), old(activeFunctions));
              returned == r.value && after == r.state.env && Did(r)
      decreases Spec.Fuel(program, true, activeFunctions), stmt, 0
    {
      hide Merge, Spec.Expression, Spec.Block, Spec.JoinInto;
      ghost var active := activeFunctions;
      ghost var tested := Spec.Expression(program, stmt.test, Spec.State(env, moduleSources), true, active);
      ghost var first := Spec.Joined(program, stmt.body, tested.state, active);
      ghost var second := Spec.Joined(program, stmt.orelse, first.state, active);
      MergeIsAssociative(outputSources, tested.recorded, first.recorded);
      MergeIsAssociative(outputSources, Merge(tested.recorded, first.recorded), second.recorded);
      var value, inner, more;
      value, after := Expression(stmt.test, env, true);
      returned, inner := Block(stmt.body, after);
      after := Spec.JoinInto(after, inner);
      more, inner := Block(stmt.orelse, after);
      after := Spec.JoinInto(after, inner);
      returned := Merge(returned, more);
    }

    method Within(stmt: Stmt, env: Env) returns (returned: Sources, after: Env)
      requires stmt.With?
      modifies this
      ensures var r := Spec.Statement(program, stmt, Spec.State(env, old(moduleSources)), old(activeFunctions));
              returned == r.value && after == r.state.env && Did(r)
      decreases Spec.Fuel(program, true, activeFunctions), stmt, 0
    {
      ghost var active := activeFunctions;
      ghost var entered := Spec.Items(program, stmt.items, Spec.State(env, moduleSources), env, active);
      ghost var inside := Spec.Block(program, stmt.body, Spec.State(entered.value, entered.state.globals), active);
      MergeIsAssociative(outputSources, entered.recorded, inside.recorded);
      var inner;
      inner, after := Items(stmt.items, env);
      returned, inner := Block(stmt.body, inner);
    }
  }

  /** What following one entry point records. */
  ghost function Recorded(p: Program, name: string, globals: Env): Sources
    requires name in p.functions
  {
    Spec.Enter(p, name, [], [], Spec.State(map[], globals), {}).recorded
  }

  /** What an analysis from these entry points may end with. */
  ghost predicate Collected(outputs: Sources, before: Sources, p: Program, names: set<string>, globals: Env)
    requires names <= p.functions.Keys
  {
    forall c :: Includes(c, outputs) <==> Includes(c, before) && IncludesAll(c, p, names, globals)
  }

  /** Two orders of the entry points end with the same outputs. */
  lemma OrderIsIrrelevant(first: Sources, second: Sources, before: Sources, p: Program, names: set<string>, globals: Env)
    requires names <= p.functions.Keys
    requires Collected(first, before, p, names, globals) && Collected(second, before, p, names, globals)
    ensures first == second
  {
    hide Includes, IncludesAll;
    SameUpperBounds(first, second);
  }

  lemma EntryFrom(p: Program, name: string, globals: Env, u: Source)
    requires name in p.functions && ProgramIn(p, u) && EnvFrom(globals, u)
    ensures From(Recorded(p, name, globals), u)
    ensures EnvFrom(Spec.Enter(p, name, [], [], Spec.State(map[], globals), {}).state.globals, u)
  {
    NothingKnown(u);
    EnterFrom(p, name, [], [], Spec.State(map[], globals), {}, u);
  }

  ghost predicate IncludesAll(c: Sources, p: Program, names: set<string>, globals: Env)
    requires names <= p.functions.Keys
  {
    forall name :: name in names ==> Includes(c, Recorded(p, name, globals))
  }

  function Beyond(arguments: seq<Sources>, i: nat): seq<Sources> {
    if i <= |arguments| then arguments[i..] else []
  }

  lemma BeyondNext(arguments: seq<Sources>, i: nat)
    ensures Beyond(arguments, i) != [] <==> i < |arguments|
    ensures i < |arguments| ==> Beyond(arguments, i)[0] == arguments[i] && Beyond(arguments, i)[1..] == Beyond(arguments, i + 1)
    ensures i >= |arguments| ==> Beyond(arguments, i + 1) == []
  {
  }
}
