/**
 * The analysis reports what flows, and nothing else: each place that a token
 * surely reaches is in the value computed, and each place in the value
 * computed is one that the token may reach.
 */
module ProducerReach {
  import opened Wrappers
  import opened Sets
  import opened Provenance
  import opened ProducerSyntax
  import opened ProducerTable
  import opened ModuleSources
  import opened ProducerFlow
  import opened ProducerPlaces
  import Spec = ProducerAnalysis

  lemma NobodyFits(c: Tracing)
    ensures FitsEnv(iset{}, map[], iset{}, c)
  {
    hide Fits;
    NothingFits(c);
    forall x ensures Fits(At(iset{}, x), Spec.Look(map[], x), At(iset{}, x), c) {
      assert At(iset{}, x) == NOWHERE;
    }
  }

  // ---- Expressions ------------------------------------------------------------------------------

  lemma {:induction false} ExpressionReaches(c: Tracing, e: Expr, lo: Places, s: Spec.State, hi: Places, follow: bool, active: set<string>)
    requires Covers(c) && FitsState(lo, s, hi, c)
    ensures FitsOutcome(Expression(c, e, lo, follow, active), Spec.Expression(c.p, e, s, follow, active), Expression(Loose(c), e, hi, follow, active), c)
    decreases Spec.Fuel(c.p, follow, active), e, 1
  {
    hide Merge, Fits, FitsEnv, Covers, List, Spec.List, MergeAll, Together;
    NothingFits(c);
    match e {
      case Empty =>
      case Text(text) =>
        TextFits(c, text);
      case Name(id) =>
        LookFits(lo.env, s.env, hi.env, c, id);
      case Attribute(value, attr) =>
        ExpressionReaches(c, value, lo, s, hi, follow, active);
        AttributeFits(c, Expression(c, value, lo, follow, active).value, Spec.Expression(c.p, value, s, follow, active).value,
                      Expression(Loose(c), value, hi, follow, active).value, attr);
      case Call(_, _, _) =>
        CallReaches(c, e, lo, s, hi, follow, active);
      case Walrus(target, value) =>
        ExpressionReaches(c, value, lo, s, hi, follow, active);
        var l, r, h := Expression(c, value, lo, follow, active), Spec.Expression(c.p, value, s, follow, active), Expression(Loose(c), value, hi, follow, active);
        AssignFits(l.state.env, r.state.env, h.state.env, l.value, r.value, h.value, c, target);
      case Elements(elements) =>
        ListReaches(c, elements, lo, s, hi, follow, active);
        MergeAllFits(List(c, elements, lo, follow, active).value, Spec.List(c.p, elements, s, follow, active).value,
                     List(Loose(c), elements, hi, follow, active).value, c);
      case Compound(children) =>
        ListReaches(c, children, lo, s, hi, follow, active);
        MergeAllFits(List(c, children, lo, follow, active).value, Spec.List(c.p, children, s, follow, active).value,
                     List(Loose(c), children, hi, follow, active).value, c);
    }
  }

  lemma {:induction false} ListReaches(c: Tracing, es: seq<Expr>, lo: Places, s: Spec.State, hi: Places, follow: bool, active: set<string>)
    requires Covers(c) && FitsState(lo, s, hi, c)
    ensures var l, r, h := List(c, es, lo, follow, active), Spec.List(c.p, es, s, follow, active), List(Loose(c), es, hi, follow, active);
            FitsAll(l.value, r.value, h.value, c) && FitsState(l.state, r.state, h.state, c) && Fits(l.recorded, r.recorded, h.recorded, c)
    decreases Spec.Fuel(c.p, follow, active), es
  {
    hide Merge, Fits, FitsState, Covers, Expression, Spec.Expression;
    NothingFits(c);
    if es != [] {
      ExpressionReaches(c, es[0], lo, s, hi, follow, active);
      var l, r, h := Expression(c, es[0], lo, follow, active), Spec.Expression(c.p, es[0], s, follow, active), Expression(Loose(c), es[0], hi, follow, active);
      ListReaches(c, es[1..], l.state, r.state, h.state, follow, active);
      MergeFits(l.recorded, r.recorded, h.recorded, List(c, es[1..], l.state, follow, active).recorded,
                Spec.List(c.p, es[1..], r.state, follow, active).recorded, List(Loose(c), es[1..], h.state, follow, active).recorded, c);
    }
  }

  lemma {:induction false} KeywordsReach(c: Tracing, ks: seq<Keyword>, lo: Places, s: Spec.State, hi: Places, follow: bool, active: set<string>)
    requires Covers(c) && FitsState(lo, s, hi, c)
    ensures var l, r, h := Keywords(c, ks, lo, follow, active), Spec.Keywords(c.p, ks, s, follow, active), Keywords(Loose(c), ks, hi, follow, active);
            FitsNamed(l.value, r.value, h.value, c) && FitsState(l.state, r.state, h.state, c) && Fits(l.recorded, r.recorded, h.recorded, c)
    decreases Spec.Fuel(c.p, follow, active), ks
  {
    hide Merge, Fits, FitsState, Covers, Expression, Spec.Expression;
    NothingFits(c);
    if ks != [] {
      var k := ks[0];
      if k.name.None? {
        KeywordsReach(c, ks[1..], lo, s, hi, follow, active);
      } else {
        assert k.value < k;
        ExpressionReaches(c, k.value, lo, s, hi, follow, active);
        var l, r, h := Expression(c, k.value, lo, follow, active), Spec.Expression(c.p, k.value, s, follow, active), Expression(Loose(c), k.value, hi, follow, active);
        KeywordsReach(c, ks[1..], l.state, r.state, h.state, follow, active);
        MergeFits(l.recorded, r.recorded, h.recorded, Keywords(c, ks[1..], l.state, follow, active).recorded,
                  Spec.Keywords(c.p, ks[1..], r.state, follow, active).recorded, Keywords(Loose(c), ks[1..], h.state, follow, active).recorded, c);
      }
    }
  }

  lemma OperandFits(c: Tracing, call: Expr, lr: Paths, receiver: Sources, hr: Paths, la: seq<Paths>, arguments: seq<Sources>, ha: seq<Paths>)
    requires call.Call? && |arguments| == |call.arguments| && Fits(lr, receiver, hr, c) && FitsAll(la, arguments, ha, c)
    ensures Fits(Operand(call, lr, la), Spec.WrittenSources(WrittenBy(call), receiver, arguments), Operand(call, hr, ha), c)
  {
    hide Fits, WrittenBy, WritesReceiver, WritesFirst, WritesSecond;
    WrittenByIsTable(call);
    assert WritesFirst(call) ==> |call.arguments| >= 1 by {
      EnoughArguments(call);
    }
    assert WritesSecond(call) ==> |call.arguments| >= 2 by {
      EnoughArguments(call);
    }
    NothingFits(c);
  }

  lemma EnoughArguments(call: Expr)
    requires call.Call?
    ensures WritesFirst(call) ==> |call.arguments| >= 1
    ensures WritesSecond(call) ==> |call.arguments| >= 2
  {
  }

  lemma {:induction false} CallReaches(c: Tracing, e: Expr, lo: Places, s: Spec.State, hi: Places, follow: bool, active: set<string>)
    requires e.Call? && Covers(c) && FitsState(lo, s, hi, c)
    ensures FitsOutcome(Expression(c, e, lo, follow, active), Spec.Expression(c.p, e, s, follow, active), Expression(Loose(c), e, hi, follow, active), c)
    decreases Spec.Fuel(c.p, follow, active), e, 0
  {
    hide Merge, MergeAll, Fits, FitsEnv, Covers, List, Spec.List, Keywords, Spec.Keywords, Enter, Spec.Enter, Namespace, Spec.Namespace,
         Together, AllKept, Inside, Operand, WrittenBy, Spec.WrittenSources;
    NothingFits(c);
    var callee, d := e.callee, Loose(c);
    var l0 := if callee.Attribute? then Expression(c, callee.value, lo, follow, active) else Trace(NOWHERE, lo, NOWHERE);
    var r0 := if callee.Attribute? then Spec.Expression(c.p, callee.value, s, follow, active) else Spec.Outcome(NOTHING, s, NOTHING);
    var h0 := if callee.Attribute? then Expression(d, callee.value, hi, follow, active) else Trace(NOWHERE, hi, NOWHERE);
    if callee.Attribute? {
      ExpressionReaches(c, callee.value, lo, s, hi, follow, active);
    }
    assert FitsOutcome(l0, r0, h0, c);
    ListReaches(c, e.arguments, l0.state, r0.state, h0.state, follow, active);
    var l1, r1, h1 := List(c, e.arguments, l0.state, follow, active), Spec.List(c.p, e.arguments, r0.state, follow, active), List(d, e.arguments, h0.state, follow, active);
    KeywordsReach(c, e.keywords, l1.state, r1.state, h1.state, follow, active);
    var l2, r2, h2 := Keywords(c, e.keywords, l1.state, follow, active), Spec.Keywords(c.p, e.keywords, r1.state, follow, active), Keywords(d, e.keywords, h1.state, follow, active);
    MergeThreeFits(l0.recorded, r0.recorded, h0.recorded, l1.recorded, r1.recorded, h1.recorded, l2.recorded, r2.recorded, h2.recorded, c);
    var l, r, h := l0.recorded + l1.recorded + l2.recorded, Merge(Merge(r0.recorded, r1.recorded), r2.recorded), h0.recorded + h1.recorded + h2.recorded;
    if follow && callee.Name? && callee.id in c.p.functions {
      EnterReaches(c, callee.id, l1.value, r1.value, h1.value, l2.value, r2.value, h2.value, l2.state, r2.state, h2.state, active);
      var l3, r3, h3 := Enter(c, callee.id, l1.value, l2.value, l2.state, active), Spec.Enter(c.p, callee.id, r1.value, r2.value, r2.state, active),
                        Enter(d, callee.id, h1.value, h2.value, h2.state, active);
      DeclaredReach(c, callee.id, l3.state, r3.state, h3.state, active);
      var declared := c.p.functions[callee.id].declared;
      var l4, r4, h4 := Namespace(c, declared, l3.state, iset{}, active), Spec.Namespace(c.p, declared, r3.state, map[], active),
                        Namespace(d, declared, h3.state, iset{}, active);
      MergeFits(l3.value, r3.value, h3.value, Inside(l4.value), Sources({}, {}, r4.value), Inside(h4.value), c);
      MergeThreeFits(l, r, h, l3.recorded, r3.recorded, h3.recorded, l4.recorded, r4.recorded, h4.recorded, c);
    } else {
      OperandFits(c, e, l0.value, r0.value, h0.value, l1.value, r1.value, h1.value);
      MergeFits(l, r, h, Operand(e, l0.value, l1.value), Spec.WrittenSources(WrittenBy(e), r0.value, r1.value), Operand(e, h0.value, h1.value), c);
      ValuesFit(c, l0.value, r0.value, h0.value, l1.value, r1.value, h1.value, l2.value, r2.value, h2.value);
    }
  }

  /** The value of a call that is not followed: receiver, arguments and the keywords kept. */
  lemma ValuesFit(c: Tracing, l0: Paths, r0: Sources, h0: Paths, l1: seq<Paths>, r1: seq<Sources>, h1: seq<Paths>,
                  l2: ProducerFlow.Named, r2: Spec.Named, h2: ProducerFlow.Named)
    requires Fits(l0, r0, h0, c) && FitsAll(l1, r1, h1, c) && FitsNamed(l2, r2, h2, c)
    ensures Fits(l0 + Together(l1) + AllKept(l2), MergeAll([r0] + r1 + Spec.ValuesOf(r2)), h0 + Together(h1) + AllKept(h2), c)
  {
    hide Fits, Merge, AllKept, Together;
    MergeAllFits(l1, r1, h1, c);
    KeptFit(l2, r2, h2, c);
    MergeThreeFits(l0, r0, h0, Together(l1), MergeAll(r1), Together(h1), AllKept(l2), MergeAll(Spec.ValuesOf(r2)), AllKept(h2), c);
    MergeAllConcat([r0] + r1, Spec.ValuesOf(r2));
    MergeAllConcat([r0], r1);
    MergeNothing(r0);
    assert MergeAll([r0]) == Merge(r0, MergeAll([])) by {
      assert [r0][1..] == [];
    }
  }

  /** The arguments that a followed function declares. */
  lemma {:induction false} DeclaredReach(c: Tracing, name: string, lo: Places, s: Spec.State, hi: Places, active: set<string>)
    requires Covers(c) && name in c.p.functions && FitsState(lo, s, hi, c)
    ensures var declared := c.p.functions[name].declared;
            var l, r, h := Namespace(c, declared, lo, iset{}, active), Spec.Namespace(c.p, declared, s, map[], active), Namespace(Loose(c), declared, hi, iset{}, active);
            && Fits(Inside(l.value), Sources({}, {}, r.value), Inside(h.value), c)
            && FitsState(l.state, r.state, h.state, c) && Fits(l.recorded, r.recorded, h.recorded, c)
    decreases 1, |c.p.functions[name].declared| + 1
  {
    var declared := c.p.functions[name].declared;
    assert CoversAll(c, declared);
    hide Fits, FitsEnv, FitsState, Covers, Namespace, Spec.Namespace, Inside;
    NobodyFits(c);
    NamespaceReaches(c, declared, lo, s, hi, iset{}, map[], iset{}, active);
    InsideFits(Namespace(c, declared, lo, iset{}, active).value, Spec.Namespace(c.p, declared, s, map[], active).value,
               Namespace(Loose(c), declared, hi, iset{}, active).value, c);
  }

  // ---- Functions ----------------------------------------------------------------------------------

  lemma {:induction false} NamespaceReaches(c: Tracing, declared: seq<Argument>, lo: Places, s: Spec.State, hi: Places,
                                            la: Vars, attributes: Env, ha: Vars, active: set<string>)
    requires Covers(c) && CoversAll(c, declared) && FitsState(lo, s, hi, c) && FitsEnv(la, attributes, ha, c) && attributes.Keys <= c.closed
    ensures var l, r, h := Namespace(c, declared, lo, la, active), Spec.Namespace(c.p, declared, s, attributes, active), Namespace(Loose(c), declared, hi, ha, active);
            FitsEnv(l.value, r.value, h.value, c) && r.value.Keys <= c.closed
            && FitsState(l.state, r.state, h.state, c) && Fits(l.recorded, r.recorded, h.recorded, c)
    decreases 1, |declared|
  {
    hide Merge, Fits, FitsEnv, Covers, Expression, Spec.Expression, Destination, Spec.Options, Put;
    NothingFits(c);
    if declared != [] {
      var a := declared[0];
      assert Destination(a) in c.closed;
      var name := Destination(a);
      if name == "" {
        NamespaceReaches(c, declared[1..], lo, s, hi, la, attributes, ha, active);
      } else {
        var l0, r0, h0 := Places(lo.globals, lo.globals), Spec.State(s.globals, s.globals), Places(hi.globals, hi.globals);
        var l := if a.default.Some? then Expression(c, a.default.value, l0, false, active) else Trace(NOWHERE, l0, NOWHERE);
        var r := if a.default.Some? then Spec.Expression(c.p, a.default.value, r0, false, active) else Spec.Outcome(NOTHING, r0, NOTHING);
        var h := if a.default.Some? then Expression(Loose(c), a.default.value, h0, false, active) else Trace(NOWHERE, h0, NOWHERE);
        if a.default.Some? {
          ExpressionReaches(c, a.default.value, l0, r0, h0, false, active);
        }
        assert FitsOutcome(l, r, h, c);
        var option := if c.token.Switch? && c.token.option in a.names && "-" <= c.token.option then HERE else NOWHERE;
        DeclaredFits(c, la, attributes, ha, name, l.value, r.value, h.value, a.names);
        var value := Merge(Merge(Spec.Look(attributes, name), r.value), Sources({}, Spec.Options(a.names), map[]));
        var l1, r1, h1 := Places(lo.env, l.state.env), Spec.State(s.env, r.state.env), Places(hi.env, h.state.env);
        var la', ha' := la + Put({name}, l.value + option), ha + Put({name}, h.value + option);
        NamespaceReaches(c, declared[1..], l1, r1, h1, la', attributes[name := value], ha', active);
        MergeFits(l.recorded, r.recorded, h.recorded, Namespace(c, declared[1..], l1, la', active).recorded,
                  Spec.Namespace(c.p, declared[1..], r1, attributes[name := value], active).recorded,
                  Namespace(Loose(c), declared[1..], h1, ha', active).recorded, c);
      }
    }
  }

  /** One declared argument more. */
  lemma DeclaredFits(c: Tracing, la: Vars, attributes: Env, ha: Vars, name: string, lv: Paths, value: Sources, hv: Paths, names: seq<string>)
    requires FitsEnv(la, attributes, ha, c) && Fits(lv, value, hv, c)
    ensures var option := if c.token.Switch? && c.token.option in names && "-" <= c.token.option then HERE else NOWHERE;
            FitsEnv(la + Put({name}, lv + option),
                    attributes[name := Merge(Merge(Spec.Look(attributes, name), value), Sources({}, Spec.Options(names), map[]))],
                    ha + Put({name}, hv + option), c)
  {
    hide Merge, Fits, FitsEnv, Put, Spec.Options;
    var option := if c.token.Switch? && c.token.option in names && "-" <= c.token.option then HERE else NOWHERE;
    var o := Sources({}, Spec.Options(names), map[]);
    OptionsFit(c, names);
    MergeFits(lv, value, hv, option, o, option, c);
    GiveFits(la, attributes, ha, lv + option, Merge(value, o), hv + option, c, name);
    MergeIsAssociative(Spec.Look(attributes, name), value, o);
  }

  lemma {:induction false} BindReaches(c: Tracing, parameters: seq<Parameter>, la: seq<Paths>, arguments: seq<Sources>, ha: seq<Paths>,
                                       ln: ProducerFlow.Named, named: Spec.Named, hn: ProducerFlow.Named,
                                       lo: Places, s: Spec.State, hi: Places, active: set<string>)
    requires Covers(c) && FitsAll(la, arguments, ha, c) && FitsNamed(ln, named, hn, c) && FitsState(lo, s, hi, c)
    ensures var l, r, h := Bind(c, parameters, la, ln, lo, active), Spec.Bind(c.p, parameters, arguments, named, s, active),
                           Bind(Loose(c), parameters, ha, hn, hi, active);
            FitsState(l.state, r.state, h.state, c) && Fits(l.recorded, r.recorded, h.recorded, c)
    decreases 1, |parameters|
  {
    hide Merge, Fits, FitsEnv, Covers, Expression, Spec.Expression, Put, Without, Given, IsGiven, Spec.Find, FitsNamed;
    NothingFits(c);
    if parameters != [] {
      var first := parameters[0];
      var l, r, h := BindFirst(c, first, la, arguments, ha, ln, named, hn, lo, s, hi, active);
      BindOneFits(l.state.env, r.state.env, h.state.env, l.value, r.value, h.value, c, first.name);
      var l1 := Places(Without(l.state.env, first.name) + Put({first.name}, l.value), l.state.globals);
      var r1 := r.state.(env := r.state.env[first.name := r.value]);
      var h1 := Places(Without(h.state.env, first.name) + Put({first.name}, h.value), h.state.globals);
      var la', a', ha' := if la != [] then la[1..] else [], if arguments != [] then arguments[1..] else [], if ha != [] then ha[1..] else [];
      BindReaches(c, parameters[1..], la', a', ha', ln, named, hn, l1, r1, h1, active);
      MergeFits(l.recorded, r.recorded, h.recorded, Bind(c, parameters[1..], la', ln, l1, active).recorded,
                Spec.Bind(c.p, parameters[1..], a', named, r1, active).recorded,
                Bind(Loose(c), parameters[1..], ha', hn, h1, active).recorded, c);
    }
  }

  /** What the first parameter gets. */
  lemma {:induction false} BindFirst(c: Tracing, first: Parameter, la: seq<Paths>, arguments: seq<Sources>, ha: seq<Paths>,
                                     ln: ProducerFlow.Named, named: Spec.Named, hn: ProducerFlow.Named,
                                     lo: Places, s: Spec.State, hi: Places, active: set<string>)
    returns (l: Trace<Paths>, r: Spec.Outcome<Sources>, h: Trace<Paths>)
    requires Covers(c) && FitsAll(la, arguments, ha, c) && FitsNamed(ln, named, hn, c) && FitsState(lo, s, hi, c)
    ensures FitsOutcome(l, r, h, c)
    ensures l == if la != [] then Trace(la[0], lo, NOWHERE)
                 else if IsGiven(ln, first.name) then Trace(Given(ln, first.name), lo, NOWHERE)
                 else if first.default.Some? then Expression(c, first.default.value, lo, false, active)
                 else Trace(NOWHERE, lo, NOWHERE)
    ensures h == if ha != [] then Trace(ha[0], hi, NOWHERE)
                 else if IsGiven(hn, first.name) then Trace(Given(hn, first.name), hi, NOWHERE)
                 else if first.default.Some? then Expression(Loose(c), first.default.value, hi, false, active)
                 else Trace(NOWHERE, hi, NOWHERE)
    ensures var given := if arguments != [] then Some(arguments[0]) else Spec.Find(named, first.name);
            r == if given.None? && first.default.Some? then Spec.Expression(c.p, first.default.value, s, false, active)
                 else Spec.Outcome(if given.Some? then given.value else NOTHING, s, NOTHING)
    decreases 1, 0
  {
    hide Merge, Fits, FitsEnv, Covers, Expression, Spec.Expression, Given, IsGiven, Spec.Find;
    NothingFits(c);
    FindIsGiven(ln, named, hn, c, first.name);
    if arguments != [] {
      l, r, h := Trace(la[0], lo, NOWHERE), Spec.Outcome(arguments[0], s, NOTHING), Trace(ha[0], hi, NOWHERE);
    } else if IsGiven(ln, first.name) {
      l, h := Trace(Given(ln, first.name), lo, NOWHERE), Trace(Given(hn, first.name), hi, NOWHERE);
      r := Spec.Outcome(Spec.Find(named, first.name).value, s, NOTHING);
    } else if first.default.Some? {
      ExpressionReaches(c, first.default.value, lo, s, hi, false, active);
      l, r, h := Expression(c, first.default.value, lo, false, active), Spec.Expression(c.p, first.default.value, s, false, active),
                 Expression(Loose(c), first.default.value, hi, false, active);
    } else {
      l, r, h := Trace(NOWHERE, lo, NOWHERE), Spec.Outcome(NOTHING, s, NOTHING), Trace(NOWHERE, hi, NOWHERE);
    }
  }

  lemma {:induction false} EnterReaches(c: Tracing, name: string, la: seq<Paths>, arguments: seq<Sources>, ha: seq<Paths>,
                                        ln: ProducerFlow.Named, named: Spec.Named, hn: ProducerFlow.Named,
                                        lo: Places, s: Spec.State, hi: Places, active: set<string>)
    requires Covers(c) && name in c.p.functions && FitsAll(la, arguments, ha, c) && FitsNamed(ln, named, hn, c) && FitsState(lo, s, hi, c)
    ensures FitsOutcome(Enter(c, name, la, ln, lo, active), Spec.Enter(c.p, name, arguments, named, s, active),
                        Enter(Loose(c), name, ha, hn, hi, active), c)
    decreases Spec.Fuel(c.p, true, active) - 1, 0
  {
    hide Merge, Fits, FitsEnv, Covers, Bind, Spec.Bind, Block, Spec.Block, FitsAll, FitsNamed;
    NothingFits(c);
    if name !in active {
      Spec.EnteringUsesFuel(c.p, name, active);
      var f := c.p.functions[name];
      var l0, r0, h0 := Places(lo.globals, lo.globals), Spec.State(s.globals, s.globals), Places(hi.globals, hi.globals);
      BindReaches(c, f.parameters, la, arguments, ha, ln, named, hn, l0, r0, h0, active);
      var l, r, h := Bind(c, f.parameters, la, ln, l0, active), Spec.Bind(c.p, f.parameters, arguments, named, r0, active),
                     Bind(Loose(c), f.parameters, ha, hn, h0, active);
      BlockReaches(c, f.body, l.state, r.state, h.state, active + {name});
      MergeFits(l.recorded, r.recorded, h.recorded, Block(c, f.body, l.state, active + {name}).recorded,
                Spec.Block(c.p, f.body, r.state, active + {name}).recorded, Block(Loose(c), f.body, h.state, active + {name}).recorded, c);
    }
  }

  // ---- Statements -----------------------------------------------------------------------------------

  lemma BothFit(l: Trace<Paths>, r: Spec.Outcome<Sources>, h: Trace<Paths>, l': Trace<Paths>, r': Spec.Outcome<Sources>, h': Trace<Paths>, c: Tracing)
    requires FitsOutcome(l, r, h, c) && FitsOutcome(l', r', h', c)
    ensures Fits(l.value + l'.value, Merge(r.value, r'.value), h.value + h'.value, c)
    ensures Fits(l.recorded + l'.recorded, Merge(r.recorded, r'.recorded), h.recorded + h'.recorded, c)
  {
    hide Merge, Fits;
    MergeFits(l.value, r.value, h.value, l'.value, r'.value, h'.value, c);
    MergeFits(l.recorded, r.recorded, h.recorded, l'.recorded, r'.recorded, h'.recorded, c);
  }

  lemma {:induction false} BlockReaches(c: Tracing, stmts: seq<Stmt>, lo: Places, s: Spec.State, hi: Places, active: set<string>)
    requires Covers(c) && FitsState(lo, s, hi, c)
    ensures FitsOutcome(Block(c, stmts, lo, active), Spec.Block(c.p, stmts, s, active), Block(Loose(c), stmts, hi, active), c)
    decreases Spec.Fuel(c.p, true, active), stmts, 0
  {
    hide Merge, Fits, FitsState, Covers, Statement, Spec.Statement;
    NothingFits(c);
    if stmts != [] {
      StatementReaches(c, stmts[0], lo, s, hi, active);
      var l, r, h := Statement(c, stmts[0], lo, active), Spec.Statement(c.p, stmts[0], s, active), Statement(Loose(c), stmts[0], hi, active);
      BlockReaches(c, stmts[1..], l.state, r.state, h.state, active);
      BothFit(l, r, h, Block(c, stmts[1..], l.state, active), Spec.Block(c.p, stmts[1..], r.state, active), Block(Loose(c), stmts[1..], h.state, active), c);
    }
  }

  lemma {:induction false} BlocksReach(c: Tracing, blocks: seq<Suite>, lo: Places, s: Spec.State, hi: Places, active: set<string>)
    requires Covers(c) && FitsState(lo, s, hi, c)
    ensures FitsOutcome(Blocks(c, blocks, lo, active), Spec.Blocks(c.p, blocks, s, active), Blocks(Loose(c), blocks, hi, active), c)
    decreases Spec.Fuel(c.p, true, active), blocks
  {
    hide Merge, Fits, FitsEnv, Covers, Block, Spec.Block;
    NothingFits(c);
    if blocks != [] {
      var suite := blocks[0];
      BlockReaches(c, suite.stmts, lo, s, hi, active);
      var l, r, h := Block(c, suite.stmts, lo, active), Spec.Block(c.p, suite.stmts, s, active), Block(Loose(c), suite.stmts, hi, active);
      var l1, r1, h1 := Places(lo.env, l.state.globals), Spec.State(s.env, r.state.globals), Places(hi.env, h.state.globals);
      BlocksReach(c, blocks[1..], l1, r1, h1, active);
      BothFit(l, r, h, Blocks(c, blocks[1..], l1, active), Spec.Blocks(c.p, blocks[1..], r1, active), Blocks(Loose(c), blocks[1..], h1, active), c);
    }
  }

  lemma {:induction false} ItemsReach(c: Tracing, items: seq<Item>, lo: Places, s: Spec.State, hi: Places, li: Vars, inner: Env, ih: Vars, active: set<string>)
    requires Covers(c) && FitsState(lo, s, hi, c) && FitsEnv(li, inner, ih, c)
    ensures var l, r, h := Items(c, items, lo, li, active), Spec.Items(c.p, items, s, inner, active), Items(Loose(c), items, hi, ih, active);
            FitsEnv(l.value, r.value, h.value, c) && FitsState(l.state, r.state, h.state, c) && Fits(l.recorded, r.recorded, h.recorded, c)
    decreases Spec.Fuel(c.p, true, active), items
  {
    hide Merge, Fits, FitsEnv, Covers, Expression, Spec.Expression, Put, Targets, Spec.AssignTo;
    NothingFits(c);
    if items != [] {
      var item := items[0];
      assert item.context < item;
      ExpressionReaches(c, item.context, lo, s, hi, true, active);
      var l, r, h := Expression(c, item.context, lo, true, active), Spec.Expression(c.p, item.context, s, true, active), Expression(Loose(c), item.context, hi, true, active);
      if item.target.Some? {
        AssignFits(li, inner, ih, l.value, r.value, h.value, c, item.target.value);
      }
      var l1 := if item.target.Some? then li + Put(Targets(item.target.value), l.value) else li;
      var r1 := if item.target.Some? then Spec.AssignTo(item.target.value, r.value, inner) else inner;
      var h1 := if item.target.Some? then ih + Put(Targets(item.target.value), h.value) else ih;
      ItemsReach(c, items[1..], l.state, r.state, h.state, l1, r1, h1, active);
      MergeFits(l.recorded, r.recorded, h.recorded, Items(c, items[1..], l.state, l1, active).recorded,
                Spec.Items(c.p, items[1..], r.state, r1, active).recorded, Items(Loose(c), items[1..], h.state, h1, active).recorded, c);
    }
  }

  lemma {:induction false} LoopReaches(c: Tracing, stmt: Stmt, lo: Places, s: Spec.State, hi: Places, active: set<string>)
    requires stmt.For? && Covers(c) && FitsState(lo, s, hi, c)
    ensures FitsOutcome(Statement(c, stmt, lo, active), Spec.Statement(c.p, stmt, s, active), Statement(Loose(c), stmt, hi, active), c)
    decreases Spec.Fuel(c.p, true, active), stmt, 0
  {
    hide Merge, Fits, FitsEnv, Covers, Expression, Spec.Expression, Block, Spec.Block, Put, Targets, Spec.AssignTo, Spec.JoinInto;
    var d, target, iter, body, orelse := Loose(c), stmt.target, stmt.iter, stmt.body, stmt.orelse;
    ExpressionReaches(c, iter, lo, s, hi, true, active);
    var l, r, h := Expression(c, iter, lo, true, active), Spec.Expression(c.p, iter, s, true, active), Expression(d, iter, hi, true, active);
    AssignFits(lo.env, s.env, hi.env, l.value, r.value, h.value, c, target);
    var l0, r0, h0 := Places(lo.env + Put(Targets(target), l.value), l.state.globals), Spec.State(Spec.AssignTo(target, r.value, s.env), r.state.globals),
                      Places(hi.env + Put(Targets(target), h.value), h.state.globals);
    BlockReaches(c, body, l0, r0, h0, active);
    var l1, r1, h1 := Block(c, body, l0, active), Spec.Block(c.p, body, r0, active), Block(d, body, h0, active);
    BlockReaches(c, orelse, l1.state, r1.state, h1.state, active);
    var l2, r2, h2 := Block(c, orelse, l1.state, active), Spec.Block(c.p, orelse, r1.state, active), Block(d, orelse, h1.state, active);
    JoinFits(l.state.env, r.state.env, h.state.env, l2.state.env, r2.state.env, h2.state.env, c);
    MergeFits(l1.value, r1.value, h1.value, l2.value, r2.value, h2.value, c);
    MergeThreeFits(l.recorded, r.recorded, h.recorded, l1.recorded, r1.recorded, h1.recorded, l2.recorded, r2.recorded, h2.recorded, c);
  }

  lemma {:induction false} BranchReaches(c: Tracing, stmt: Stmt, lo: Places, s: Spec.State, hi: Places, active: set<string>)
    requires stmt.Branch? && Covers(c) && FitsState(lo, s, hi, c)
    ensures FitsOutcome(Statement(c, stmt, lo, active), Spec.Statement(c.p, stmt, s, active), Statement(Loose(c), stmt, hi, active), c)
    decreases Spec.Fuel(c.p, true, active), stmt, 0
  {
    hide Merge, Fits, FitsEnv, Covers, Expression, Spec.Expression, Block, Spec.Block, Spec.JoinInto;
    var d, test, body, orelse := Loose(c), stmt.test, stmt.body, stmt.orelse;
    ExpressionReaches(c, test, lo, s, hi, true, active);
    var l, r, h := Expression(c, test, lo, true, active), Spec.Expression(c.p, test, s, true, active), Expression(d, test, hi, true, active);
    BlockReaches(c, body, l.state, r.state, h.state, active);
    var l1, r1, h1 := Block(c, body, l.state, active), Spec.Block(c.p, body, r.state, active), Block(d, body, h.state, active);
    JoinFits(l.state.env, r.state.env, h.state.env, l1.state.env, r1.state.env, h1.state.env, c);
    var l0, r0, h0 := Places(l.state.env + l1.state.env, l1.state.globals), Spec.State(Spec.JoinInto(r.state.env, r1.state.env), r1.state.globals),
                      Places(h.state.env + h1.state.env, h1.state.globals);
    BlockReaches(c, orelse, l0, r0, h0, active);
    var l2, r2, h2 := Block(c, orelse, l0, active), Spec.Block(c.p, orelse, r0, active), Block(d, orelse, h0, active);
    JoinFits(l0.env, r0.env, h0.env, l2.state.env, r2.state.env, h2.state.env, c);
    MergeFits(l1.value, r1.value, h1.value, l2.value, r2.value, h2.value, c);
    MergeThreeFits(l.recorded, r.recorded, h.recorded, l1.recorded, r1.recorded, h1.recorded, l2.recorded, r2.recorded, h2.recorded, c);
    var first := Spec.Joined(c.p, body, r.state, active);
    assert first == Spec.Outcome(r1.value, r0, r1.recorded);
    assert Spec.Joined(c.p, orelse, r0, active) == Spec.Outcome(r2.value, Spec.State(Spec.JoinInto(r0.env, r2.state.env), r2.state.globals), r2.recorded);
  }

  lemma {:induction false} WithReaches(c: Tracing, stmt: Stmt, lo: Places, s: Spec.State, hi: Places, active: set<string>)
    requires stmt.With? && Covers(c) && FitsState(lo, s, hi, c)
    ensures FitsOutcome(Statement(c, stmt, lo, active), Spec.Statement(c.p, stmt, s, active), Statement(Loose(c), stmt, hi, active), c)
    decreases Spec.Fuel(c.p, true, active), stmt, 0
  {
    hide Merge, Fits, FitsEnv, Covers, Items, Spec.Items, Block, Spec.Block;
    var d := Loose(c);
    ItemsReach(c, stmt.items, lo, s, hi, lo.env, s.env, hi.env, active);
    var l, r, h := Items(c, stmt.items, lo, lo.env, active), Spec.Items(c.p, stmt.items, s, s.env, active), Items(d, stmt.items, hi, hi.env, active);
    var l0, r0, h0 := Places(l.value, l.state.globals), Spec.State(r.value, r.state.globals), Places(h.value, h.state.globals);
    BlockReaches(c, stmt.body, l0, r0, h0, active);
    MergeFits(l.recorded, r.recorded, h.recorded, Block(c, stmt.body, l0, active).recorded, Spec.Block(c.p, stmt.body, r0, active).recorded,
              Block(d, stmt.body, h0, active).recorded, c);
  }

  lemma {:induction false} AssignReaches(c: Tracing, stmt: Stmt, lo: Places, s: Spec.State, hi: Places, active: set<string>)
    requires (stmt.Assign? || stmt.AugAssign?) && Covers(c) && FitsState(lo, s, hi, c)
    ensures FitsOutcome(Statement(c, stmt, lo, active), Spec.Statement(c.p, stmt, s, active), Statement(Loose(c), stmt, hi, active), c)
    decreases Spec.Fuel(c.p, true, active), stmt, 0
  {
    hide Merge, Fits, FitsEnv, Covers, Expression, Spec.Expression, Put, Targets, AllTargets, Spec.AssignTo, Spec.AssignEach;
    NothingFits(c);
    var d := Loose(c);
    match stmt {
      case Assign(targets, value) =>
        ExpressionReaches(c, value, lo, s, hi, true, active);
        var l, r, h := Expression(c, value, lo, true, active), Spec.Expression(c.p, value, s, true, active), Expression(d, value, hi, true, active);
        AssignEachFits(l.state.env, r.state.env, h.state.env, l.value, r.value, h.value, c, targets);
      case AugAssign(target, value) =>
        ExpressionReaches(c, target, lo, s, hi, true, active);
        var l, r, h := Expression(c, target, lo, true, active), Spec.Expression(c.p, target, s, true, active), Expression(d, target, hi, true, active);
        ExpressionReaches(c, value, l.state, r.state, h.state, true, active);
        var l1, r1, h1 := Expression(c, value, l.state, true, active), Spec.Expression(c.p, value, r.state, true, active), Expression(d, value, h.state, true, active);
        BothFit(l, r, h, l1, r1, h1, c);
        AssignFits(l1.state.env, r1.state.env, h1.state.env, l.value + l1.value, Merge(r.value, r1.value), h.value + h1.value, c, target);
    }
  }

  lemma {:induction false} StatementReaches(c: Tracing, stmt: Stmt, lo: Places, s: Spec.State, hi: Places, active: set<string>)
    requires Covers(c) && FitsState(lo, s, hi, c)
    ensures FitsOutcome(Statement(c, stmt, lo, active), Spec.Statement(c.p, stmt, s, active), Statement(Loose(c), stmt, hi, active), c)
    decreases Spec.Fuel(c.p, true, active), stmt, 1
  {
    hide Merge, Fits, FitsState, Covers, Expression, Spec.Expression, Block, Spec.Block, Blocks, Spec.Blocks, Items, Spec.Items, Spec.Joined,
         Put, Spec.JoinInto, Spec.AssignTo, Spec.AssignEach;
    NothingFits(c);
    match stmt {
      case Assign(_, _) => AssignReaches(c, stmt, lo, s, hi, active);
      case AugAssign(_, _) => AssignReaches(c, stmt, lo, s, hi, active);
      case Evaluate(value) => ExpressionReaches(c, value, lo, s, hi, true, active);
      case Return(value) => ExpressionReaches(c, value, lo, s, hi, true, active);
      case For(_, _, _, _) => LoopReaches(c, stmt, lo, s, hi, active);
      case Branch(_, _, _) => BranchReaches(c, stmt, lo, s, hi, active);
      case With(_, _) => WithReaches(c, stmt, lo, s, hi, active);
      case Try(blocks) => BlocksReach(c, blocks, lo, s, hi, active);
      case Other =>
    }
  }

  // ---- The module -------------------------------------------------------------------------------------

  lemma {:induction false} AssignmentsReach(c: Tracing, assignments: seq<Assignment>, lo: Vars, env: Env, hi: Vars)
    requires Covers(c) && FitsEnv(lo, env, hi, c)
    ensures var l, r, h := Assignments(c, assignments, lo), AssignAll(c.p, assignments, env), Assignments(Loose(c), assignments, hi);
            FitsEnv(l.vars, r.env, h.vars, c) && Fits(l.recorded, r.recorded, h.recorded, c)
    decreases |assignments|
  {
    hide Merge, Fits, FitsEnv, Covers, Expression, Spec.Expression, Put, AllTargets, Spec.AssignEach;
    NothingFits(c);
    if assignments != [] {
      var a, d := assignments[0], Loose(c);
      ExpressionReaches(c, a.value, Places(lo, lo), Spec.State(env, env), Places(hi, hi), false, {});
      var l, r, h := Expression(c, a.value, Places(lo, lo), false, {}), Spec.Expression(c.p, a.value, Spec.State(env, env), false, {}),
                     Expression(d, a.value, Places(hi, hi), false, {});
      AssignEachFits(l.state.env, r.state.env, h.state.env, l.value, r.value, h.value, c, a.targets);
      var l1, r1, h1 := l.state.env + Put(AllTargets(a.targets), l.value), Spec.AssignEach(a.targets, r.value, r.state.env),
                        h.state.env + Put(AllTargets(a.targets), h.value);
      AssignmentsReach(c, assignments[1..], l1, r1, h1);
      MergeFits(l.recorded, r.recorded, h.recorded, Assignments(c, assignments[1..], l1).recorded,
                AssignAll(c.p, assignments[1..], r1).recorded, Assignments(d, assignments[1..], h1).recorded, c);
    }
  }

  ghost predicate FitsModule(lo: Module, env: Env, recorded: Sources, hi: Module, c: Tracing) {
    FitsEnv(lo.vars, env, hi.vars, c) && Fits(lo.recorded, recorded, hi.recorded, c)
  }

  lemma PassReaches(c: Tracing, j: nat, env: Env, recorded: Sources)
    requires Covers(c) && FitsModule(Passes(c, j), env, recorded, Passes(Loose(c), j), c)
    ensures var r := AssignAll(c.p, c.p.assignments, env);
            FitsModule(Passes(c, j + 1), r.env, Merge(recorded, r.recorded), Passes(Loose(c), j + 1), c)
  {
    hide Merge, Fits, FitsEnv, Covers, Assignments, AssignAll;
    var l, h := Passes(c, j), Passes(Loose(c), j);
    AssignmentsReach(c, c.p.assignments, l.vars, env, h.vars);
    MergeFits(l.recorded, recorded, h.recorded, Assignments(c, c.p.assignments, l.vars).recorded,
              AssignAll(c.p, c.p.assignments, env).recorded, Assignments(Loose(c), c.p.assignments, h.vars).recorded, c);
  }

  /** Passes that change nothing add nothing. */
  lemma {:induction false} IdlePassesReach(c: Tracing, j: nat, k: nat, env: Env, recorded: Sources)
    requires Covers(c) && FitsModule(Passes(c, j), env, recorded, Passes(Loose(c), j), c)
    requires AssignAll(c.p, c.p.assignments, env).env == env && Merge(recorded, AssignAll(c.p, c.p.assignments, env).recorded) == recorded
    ensures FitsModule(Passes(c, j + k), env, recorded, Passes(Loose(c), j + k), c)
    decreases k
  {
    hide Merge, FitsModule, Covers, Passes, AssignAll;
    if k > 0 {
      PassReaches(c, j, env, recorded);
      IdlePassesReach(c, j + 1, k - 1, env, recorded);
    }
  }

  lemma {:induction false} LoadPassesReach(c: Tracing, j: nat, k: nat, env: Env, recorded: Sources)
    requires Covers(c) && FitsModule(Passes(c, j), env, recorded, Passes(Loose(c), j), c)
    ensures var r := LoadPasses(c.p, env, k);
            FitsModule(Passes(c, j + k), r.env, Merge(recorded, r.recorded), Passes(Loose(c), j + k), c)
    decreases k
  {
    hide Merge, FitsModule, Covers, Passes, AssignAll;
    if k == 0 {
      MergeNothing(recorded);
    } else {
      var r := AssignAll(c.p, c.p.assignments, env);
      PassReaches(c, j, env, recorded);
      if r.env == env {
        MergeIsAssociative(recorded, r.recorded, r.recorded);
        MergeIsIdempotent(r.recorded);
        IdlePassesReach(c, j + 1, k - 1, env, Merge(recorded, r.recorded));
      } else {
        LoadPassesReach(c, j + 1, k - 1, r.env, Merge(recorded, r.recorded));
        MergeIsAssociative(recorded, r.recorded, LoadPasses(c.p, r.env, k - 1).recorded);
      }
    }
  }

  /** What loading the module finds and records. */
  lemma LoadReaches(c: Tracing)
    requires Covers(c)
    ensures FitsModule(AtLoad(c), Load(c.p).env, Load(c.p).recorded, AtLoad(Loose(c)), c)
  {
    hide Merge, Fits, FitsEnv, Covers, LoadPasses;
    NobodyFits(c);
    NothingFits(c);
    assert FitsModule(Passes(c, 0), map[], NOTHING, Passes(Loose(c), 0), c);
    LoadPassesReach(c, 0, |c.p.assignments| + 1, map[], NOTHING);
    MergeNothing(Load(c.p).recorded);
  }

  // ---- The entry points ---------------------------------------------------------------------------------

  /** Following the entry points in this order, from these module variables. */
  ghost function FollowAll(p: Program, order: seq<string>, globals: Env): ModuleSources.Loaded
    requires forall name :: name in order ==> name in p.functions
    decreases |order|
  {
    if order == [] then ModuleSources.Loaded(globals, NOTHING)
    else
      var last := |order| - 1;
      var before := FollowAll(p, order[..last], globals);
      assert order[last] in order;
      var r := Spec.Enter(p, order[last], [], [], Spec.State(map[], before.env), {});
      ModuleSources.Loaded(r.state.globals, Merge(before.recorded, r.recorded))
  }

  ghost predicate InEntry(c: Tracing, names: set<string>, vars: Vars, q: Path)
  {
    exists name :: name in names && name in c.p.functions && q in Entry(c, name, vars).recorded
  }

  /** What following each of the entry points from these variables records. */
  ghost function Entries(c: Tracing, names: set<string>, vars: Vars): Paths {
    iset q: Path | InEntry(c, names, vars, q)
  }

  /** Following an entry point leads to no other module variables. */
  ghost predicate Stays(c: Tracing, names: set<string>, vars: Vars) {
    forall name :: name in names && name in c.p.functions ==> Entry(c, name, vars).state.globals <= vars
  }

  lemma WidenEnv(lo: Vars, lo': Vars, env: Env, hi: Vars, hi': Vars, c: Tracing)
    requires FitsEnv(lo', env, hi, c) && lo <= lo' && hi <= hi'
    ensures FitsEnv(lo, env, hi', c)
  {
    forall x ensures Fits(At(lo, x), Spec.Look(env, x), At(hi', x), c) {
      LookFits(lo', env, hi, c, x);
    }
  }

  lemma EntryReaches(c: Tracing, name: string, lo: Vars, globals: Env, hi: Vars)
    requires Covers(c) && name in c.p.functions && FitsEnv(lo, globals, hi, c) && Entry(Loose(c), name, hi).state.globals <= hi
    ensures var r := Spec.Enter(c.p, name, [], [], Spec.State(map[], globals), {});
            FitsEnv(lo, r.state.globals, hi, c) && Fits(Entry(c, name, lo).recorded, r.recorded, Entry(Loose(c), name, hi).recorded, c)
  {
    hide Fits, FitsEnv, Covers, Enter, Spec.Enter;
    NobodyFits(c);
    var r := Spec.Enter(c.p, name, [], [], Spec.State(map[], globals), {});
    EnterReaches(c, name, [], [], [], [], [], [], Places(iset{}, lo), Spec.State(map[], globals), Places(iset{}, hi), {});
    WidenEnv(lo, Entry(c, name, lo).state.globals, r.state.globals, Entry(Loose(c), name, hi).state.globals, hi, c);
  }

  lemma {:induction false} FollowReaches(c: Tracing, order: seq<string>, lo: Vars, globals: Env, hi: Vars)
    requires Covers(c) && (forall name :: name in order ==> name in c.p.functions) && FitsEnv(lo, globals, hi, c)
    requires Stays(Loose(c), Members(order), hi)
    ensures var r := FollowAll(c.p, order, globals);
            && FitsEnv(lo, r.env, hi, c)
            && Fits(Entries(c, Members(order), lo), r.recorded, Entries(Loose(c), Members(order), hi), c)
    decreases |order|
  {
    hide Merge, Fits, FitsEnv, Covers, Entry, Spec.Enter;
    NothingFits(c);
    var d, names := Loose(c), Members(order);
    if order == [] {
      assert Entries(c, names, lo) == NOWHERE && Entries(d, names, hi) == NOWHERE;
    } else {
      var last := |order| - 1;
      var before, rest := order[..last], Members(order[..last]);
      assert order[last] in names && forall name :: name in names <==> name in rest || name == order[last];
      FollowReaches(c, before, lo, globals, hi);
      var r := FollowAll(c.p, before, globals);
      EntryReaches(c, order[last], lo, r.env, hi);
      var e := Spec.Enter(c.p, order[last], [], [], Spec.State(map[], r.env), {});
      EntriesMore(c, names, rest, order[last], lo);
      EntriesMore(d, names, rest, order[last], hi);
      MergeFits(Entries(c, rest, lo), r.recorded, Entries(d, rest, hi), Entry(c, order[last], lo).recorded, e.recorded, Entry(d, order[last], hi).recorded, c);
    }
  }

  lemma EntriesMore(c: Tracing, names: set<string>, rest: set<string>, name: string, vars: Vars)
    requires name in c.p.functions && forall x :: x in names <==> x in rest || x == name
    ensures Entries(c, names, vars) == Entries(c, rest, vars) + Entry(c, name, vars).recorded
  {
    hide Entry;
    forall q ensures InEntry(c, names, vars, q) <==> InEntry(c, rest, vars, q) || q in Entry(c, name, vars).recorded {
    }
  }
}
