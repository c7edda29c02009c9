/** What is found about a producer: the texts and the options that may name its outputs. */
module ProducerReport {
  import opened Wrappers
  import opened Sets
  import opened Provenance
  import opened ProducerSyntax
  import opened ProducerTable
  import opened ProducerFlow
  import opened ProducerPlaces
  import opened ProducerReach
  import opened ProducerAnalyzer
  import Spec = ProducerAnalysis
  import ModuleSources

  /** Where the arguments declared in the producer are stored. */
  function Destinations(p: Program): set<string> {
    set name, a | name in p.functions.Keys && a in p.functions[name].declared :: Destination(a)
  }

  /** The token passes only where it is certain to: not through an attribute named like an argument. */
  ghost function Sure(p: Program, t: Token): Tracing {
    Tracing(p, t, Destinations(p))
  }

  /** The token passes wherever it may. */
  ghost function Perhaps(p: Program, t: Token): Tracing {
    Tracing(p, t, {})
  }

  /** Some flow through the syntax carries the token to a written operand: when the module is loaded, or in what an
      entry point does, starting from these module variables. */
  ghost predicate Reached(c: Tracing, entrypoints: set<string>, vars: Vars) {
    [] in AtLoad(c).recorded || exists name :: name in entrypoints && name in c.p.functions && [] in Entry(c, name, vars).recorded
  }

  ghost predicate Surely(p: Program, t: Token, entrypoints: set<string>) {
    Reached(Sure(p, t), entrypoints, AtLoad(Sure(p, t)).vars)
  }

  /** Module variables to which loading and the entry points add nothing. */
  ghost predicate Enough(p: Program, t: Token, entrypoints: set<string>, vars: Vars) {
    AtLoad(Perhaps(p, t)).vars <= vars && Stays(Perhaps(p, t), entrypoints, vars)
  }

  lemma DestinationsCover(p: Program, t: Token)
    ensures Covers(Sure(p, t)) && Loose(Sure(p, t)) == Perhaps(p, t)
  {
    hide Destination;
    forall name | name in p.functions.Keys ensures CoversAll(Sure(p, t), p.functions[name].declared) {
      forall a | a in p.functions[name].declared ensures Destination(a) in Destinations(p) {
      }
    }
  }

  /** Outputs that fit what is recorded at first and then by the entry points. */
  lemma OutputsFit(p: Program, t: Token, entrypoints: set<string>, order: seq<string>, vars: Vars)
    requires entrypoints <= p.functions.Keys && (forall name :: name in order <==> name in entrypoints)
    requires Enough(p, t, entrypoints, vars)
    ensures var c, loaded := Sure(p, t), ModuleSources.Load(p);
            var outputs := Merge(loaded.recorded, FollowAll(p, order, loaded.env).recorded);
            && (Surely(p, t, entrypoints) ==> Holds(outputs, t, []))
            && (Holds(outputs, t, []) ==> Reached(Perhaps(p, t), entrypoints, vars))
  {
    var c, d, loaded := Sure(p, t), Perhaps(p, t), ModuleSources.Load(p);
    DestinationsCover(p, t);
    LoadReaches(c);
    assert Members(order) == entrypoints;
    WidenEnv(AtLoad(c).vars, AtLoad(c).vars, loaded.env, AtLoad(d).vars, vars, c);
    hide Merge, Covers, AtLoad, Entry, FitsEnv, ModuleSources.Load, Loose, Sure, Perhaps;
    FollowReaches(c, order, AtLoad(c).vars, loaded.env, vars);
    var r := FollowAll(p, order, loaded.env);
    MergeFits(AtLoad(c).recorded, loaded.recorded, AtLoad(d).recorded, Entries(c, entrypoints, AtLoad(c).vars), r.recorded, Entries(d, entrypoints, vars), c);
    EntriesAreReached(c, entrypoints, AtLoad(c).vars);
    EntriesAreReached(d, entrypoints, vars);
  }

  lemma EntriesAreReached(c: Tracing, entrypoints: set<string>, vars: Vars)
    ensures [] in AtLoad(c).recorded + Entries(c, entrypoints, vars) <==> Reached(c, entrypoints, vars)
  {
    hide AtLoad, Entry;
    var nowhere: Path := [];
    assert nowhere in Entries(c, entrypoints, vars) <==> InEntry(c, entrypoints, vars, nowhere);
  }

  /** All module variables are enough. */
  lemma AllIsEnough(p: Program, t: Token, entrypoints: set<string>)
    ensures Enough(p, t, entrypoints, iset v: (string, Path) | |v.0| >= 0)
  {
  }

  /** Unless an argument's default assigns a variable, those found by loading the module are enough. */
  lemma LoadedIsEnough(p: Program, t: Token, entrypoints: set<string>)
    requires WalrusFreeDefaults(p)
    ensures Enough(p, t, entrypoints, AtLoad(Perhaps(p, t)).vars)
  {
    hide AtLoad, Enter;
    var d := Perhaps(p, t);
    forall name | name in entrypoints && name in d.p.functions ensures Entry(d, name, AtLoad(d).vars).state.globals <= AtLoad(d).vars {
    }
  }

  /** In a producer that declares no arguments the two flows are one. */
  lemma SureWithoutArguments(p: Program, t: Token, entrypoints: set<string>)
    requires forall name :: name in p.functions.Keys ==> p.functions[name].declared == []
    ensures Surely(p, t, entrypoints) <==> Reached(Perhaps(p, t), entrypoints, AtLoad(Perhaps(p, t)).vars)
    ensures Enough(p, t, entrypoints, AtLoad(Perhaps(p, t)).vars)
  {
    assert Destinations(p) == {};
    assert Sure(p, t) == Perhaps(p, t);
    assert WalrusFreeDefaults(p);
    LoadedIsEnough(p, t, entrypoints);
  }

  /** A path written out, and written to, is found: `Path(path).write_text(text)` in `main`. */
  lemma PathIsSure(p: Program, path: string, text: string)
    requires "main" in p.functions && "Path" !in p.functions
    requires var made := Call(Name("Path"), [Text(path)], []);
             p.functions["main"] == Function([], [Evaluate(Call(Attribute(made, "write_text"), [Text(text)], []))], [])
    ensures Surely(p, Words(path), {"main"})
  {
    var c, s := Sure(p, Words(path)), Places(AtLoad(Sure(p, Words(path))).vars, AtLoad(Sure(p, Words(path))).vars);
    hide AtLoad;
    var made := Call(Name("Path"), [Text(path)], []);
    var call := Call(Attribute(made, "write_text"), [Text(text)], []);
    OneArgument(c, path, s);
    OneArgument(c, text, s);
    assert Keywords(c, [], s, true, {"main"}) == Trace([], s, NOWHERE);
    var r := Expression(c, made, s, true, {"main"});
    assert [] in r.value && r.state == s by {
      assert [] in Together(List(c, [Text(path)], s, true, {"main"}).value);
    }
    assert WritesReceiver(call);
    assert [] in Expression(c, call, s, true, {"main"}).recorded;
    assert Block(c, [Evaluate(call)], s, {"main"}).recorded == Expression(c, call, s, true, {"main"}).recorded + NOWHERE by {
      assert [Evaluate(call)][1..] == [];
    }
    var nobody: set<string> := {};
    assert nobody + {"main"} == {"main"};
    assert Bind(c, [], [], [], s, nobody) == Trace((), s, NOWHERE);
    assert [] in Entry(c, "main", s.globals).recorded;
  }

  lemma OneArgument(c: Tracing, text: string, s: Places)
    ensures var r := List(c, [Text(text)], s, true, {"main"});
            r.state == s && |r.value| == 1 && (c.token == Words(text) ==> [] in Together(r.value))
  {
    assert [Text(text)][1..] == [];
    var r := List(c, [Text(text)], s, true, {"main"});
    assert r.value == [Expression(c, Text(text), s, true, {"main"}).value] + [];
    if c.token == Words(text) {
      assert InSome(r.value, []) by {
        assert [] in r.value[0];
      }
    }
  }

  /** Every text and option that surely flows to a written operand is found, and none that does not perhaps flow there. */
  method Report(p: Program, entrypoints: set<string>) returns (literals: set<string>, options: set<string>)
    requires entrypoints <= p.functions.Keys
    ensures forall text: string :: Surely(p, Words(text), entrypoints) ==> text in literals
    ensures forall option: string :: Surely(p, Switch(option), entrypoints) ==> option in options
    ensures forall text, vars :: text in literals && Enough(p, Words(text), entrypoints, vars) ==> Reached(Perhaps(p, Words(text)), entrypoints, vars)
    ensures forall option, vars :: option in options && Enough(p, Switch(option), entrypoints, vars) ==> Reached(Perhaps(p, Switch(option)), entrypoints, vars)
  {
    hide Surely, Enough, Reached, FollowAll, ModuleSources.Load, Merge;
    var analyzer := new Analyzer(p);
    ghost var order := analyzer.Analyze(entrypoints);
    literals, options := analyzer.outputSources.literals, analyzer.outputSources.options;
    forall t: Token, vars | Enough(p, t, entrypoints, vars)
      ensures (Surely(p, t, entrypoints) ==> Holds(analyzer.outputSources, t, []))
      ensures Holds(analyzer.outputSources, t, []) ==> Reached(Perhaps(p, t), entrypoints, vars)
    {
      OutputsFit(p, t, entrypoints, order, vars);
    }
    forall t: Token ensures Surely(p, t, entrypoints) ==> Holds(analyzer.outputSources, t, []) {
      AllIsEnough(p, t, entrypoints);
    }
    forall text: string ensures Holds(analyzer.outputSources, Words(text), []) <==> text in literals {
    }
    forall option: string ensures Holds(analyzer.outputSources, Switch(option), []) <==> option in options {
    }
  }
}
