/**
 * Where a value holds a token, and that the operations of the analysis on
 * values and variables move tokens from place to place as the flow says.
 */
module ProducerPlaces {
  import opened Wrappers
  import opened Provenance
  import opened ProducerSyntax
  import opened ProducerTable
  import opened ModuleSources
  import opened ProducerFlow
  import Spec = ProducerAnalysis

  type Env = Spec.Env

  // ---- Where a value holds a token ------------------------------------------------------------

  ghost predicate Holds(s: Sources, t: Token, q: Path)
    decreases |q|
  {
    if q != [] then q[0] in s.attributes.Keys && Holds(s.attributes[q[0]], t, q[1..])
    else match t case Words(text) => text in s.literals case Switch(option) => option in s.options
  }

  /** Only attributes of these names, however deep. */
  ghost predicate Known(s: Sources, names: set<string>) {
    forall n :: n in s.attributes.Keys ==> n in names && Known(s.attributes[n], names)
  }

  /** The value holds the token at the places of `lo`, and at none outside `hi`. */
  ghost predicate Fits(lo: Paths, s: Sources, hi: Paths, c: Tracing) {
    && Known(s, c.closed)
    && (forall q :: q in lo ==> Holds(s, c.token, q))
    && (forall q :: Holds(s, c.token, q) ==> q in hi)
  }

  ghost predicate FitsEnv(lo: Vars, env: Env, hi: Vars, c: Tracing) {
    forall x :: Fits(At(lo, x), Spec.Look(env, x), At(hi, x), c)
  }

  ghost predicate FitsState(lo: Places, s: Spec.State, hi: Places, c: Tracing) {
    FitsEnv(lo.env, s.env, hi.env, c) && FitsEnv(lo.globals, s.globals, hi.globals, c)
  }

  ghost predicate FitsOutcome(lo: Trace<Paths>, r: Spec.Outcome<Sources>, hi: Trace<Paths>, c: Tracing) {
    Fits(lo.value, r.value, hi.value, c) && FitsState(lo.state, r.state, hi.state, c) && Fits(lo.recorded, r.recorded, hi.recorded, c)
  }

  ghost predicate FitsAll(lo: seq<Paths>, values: seq<Sources>, hi: seq<Paths>, c: Tracing) {
    |lo| == |values| == |hi| && forall i :: 0 <= i < |values| ==> Fits(lo[i], values[i], hi[i], c)
  }

  ghost predicate FitsNamed(lo: ProducerFlow.Named, values: Spec.Named, hi: ProducerFlow.Named, c: Tracing) {
    && |lo| == |values| == |hi|
    && forall i :: 0 <= i < |values| ==>
         lo[i].0 == values[i].0 == hi[i].0 && Fits(lo[i].1, values[i].1, hi[i].1, c)
  }

  /** Every attribute name is open: the token may pass. */
  ghost function Loose(c: Tracing): Tracing {
    c.(closed := {})
  }

  /** Every argument declared anywhere is stored under a name that is closed. */
  ghost predicate Covers(c: Tracing) {
    forall name :: name in c.p.functions.Keys ==> CoversAll(c, c.p.functions[name].declared)
  }

  ghost predicate CoversAll(c: Tracing, declared: seq<Argument>) {
    forall a :: a in declared ==> Destination(a) in c.closed
  }

  // ---- Merging ------------------------------------------------------------------------------------

  lemma {:induction false} MergeHolds(a: Sources, b: Sources, t: Token, q: Path)
    ensures Holds(Merge(a, b), t, q) <==> Holds(a, t, q) || Holds(b, t, q)
    decreases |q|
  {
    var m := Merge(a, b);
    if q != [] {
      if q[0] in a.attributes && q[0] in b.attributes {
        MergeHolds(a.attributes[q[0]], b.attributes[q[0]], t, q[1..]);
      }
      assert q[0] in m.attributes.Keys <==> q[0] in a.attributes.Keys || q[0] in b.attributes.Keys;
    }
  }

  lemma {:induction false} MergeKnown(a: Sources, b: Sources, names: set<string>)
    requires Known(a, names) && Known(b, names)
    ensures Known(Merge(a, b), names)
    decreases a
  {
    var m := Merge(a, b);
    forall n | n in m.attributes.Keys ensures n in names && Known(m.attributes[n], names) {
      if n in a.attributes && n in b.attributes {
        MergeKnown(a.attributes[n], b.attributes[n], names);
      }
    }
  }

  lemma MergeFits(la: Paths, a: Sources, ha: Paths, lb: Paths, b: Sources, hb: Paths, c: Tracing)
    requires Fits(la, a, ha, c) && Fits(lb, b, hb, c)
    ensures Fits(la + lb, Merge(a, b), ha + hb, c)
  {
    MergeKnown(a, b, c.closed);
    hide Merge, Holds, Known;
    forall q ensures (q in la + lb ==> Holds(Merge(a, b), c.token, q)) && (Holds(Merge(a, b), c.token, q) ==> q in ha + hb) {
      MergeHolds(a, b, c.token, q);
    }
  }

  lemma NothingFits(c: Tracing)
    ensures Fits(NOWHERE, NOTHING, NOWHERE, c)
  {
    forall q ensures !Holds(NOTHING, c.token, q) {
    }
  }

  lemma MergeThreeFits(la: Paths, a: Sources, ha: Paths, lb: Paths, b: Sources, hb: Paths, ld: Paths, d: Sources, hd: Paths, c: Tracing)
    requires Fits(la, a, ha, c) && Fits(lb, b, hb, c) && Fits(ld, d, hd, c)
    ensures Fits(la + lb + ld, Merge(Merge(a, b), d), ha + hb + hd, c)
  {
    hide Fits;
    MergeFits(la, a, ha, lb, b, hb, c);
    MergeFits(la + lb, Merge(a, b), ha + hb, ld, d, hd, c);
  }

  lemma {:induction false} MergeAllFits(lo: seq<Paths>, values: seq<Sources>, hi: seq<Paths>, c: Tracing)
    requires FitsAll(lo, values, hi, c)
    ensures Fits(Together(lo), MergeAll(values), Together(hi), c)
    decreases |values|
  {
    hide Fits, Merge;
    NothingFits(c);
    if values == [] {
      assert Together(lo) == NOWHERE && Together(hi) == NOWHERE;
    } else {
      MergeAllFits(lo[1..], values[1..], hi[1..], c);
      MergeFits(lo[0], values[0], hi[0], Together(lo[1..]), MergeAll(values[1..]), Together(hi[1..]), c);
      TogetherSplits(lo);
      TogetherSplits(hi);
    }
  }

  lemma TogetherSplits(values: seq<Paths>)
    requires values != []
    ensures Together(values) == values[0] + Together(values[1..])
  {
    forall q ensures InSome(values, q) <==> q in values[0] || InSome(values[1..], q) {
      if InSome(values[1..], q) {
        var i :| 0 <= i < |values[1..]| && q in values[1..][i];
        assert q in values[i + 1];
      }
      if InSome(values, q) {
        var i :| 0 <= i < |values| && q in values[i];
        assert i > 0 ==> q in values[1..][i - 1];
      }
    }
  }

  lemma TextFits(c: Tracing, text: string)
    ensures var here := if c.token == Words(text) then HERE else NOWHERE; Fits(here, Sources({text}, {}, map[]), here, c)
  {
    var s := Sources({text}, {}, map[]);
    forall q ensures Holds(s, c.token, q) <==> q == [] && c.token == Words(text) {
    }
  }

  lemma OptionsFit(c: Tracing, names: seq<string>)
    ensures var here := if c.token.Switch? && c.token.option in names && "-" <= c.token.option then HERE else NOWHERE;
            Fits(here, Sources({}, Spec.Options(names), map[]), here, c)
  {
    var s := Sources({}, Spec.Options(names), map[]);
    forall q ensures Holds(s, c.token, q) <==> q == [] && c.token.Switch? && c.token.option in names && "-" <= c.token.option {
    }
  }

  /** Reading an attribute: what it holds, or the value's own sources where it is not known. */
  lemma AttributeFits(c: Tracing, lo: Paths, s: Sources, hi: Paths, attr: string)
    requires Fits(lo, s, hi, c)
    ensures Fits(Read(c, lo, attr), Provenance.Attribute(s, attr), Read(Loose(c), hi, attr), c)
  {
    var r := Provenance.Attribute(s, attr);
    assert Known(r, c.closed);
    forall q ensures q in Read(c, lo, attr) ==> Holds(r, c.token, q) {
      AttributeHolds(s, attr, c.token, q);
    }
    forall q ensures Holds(r, c.token, q) ==> q in Read(Loose(c), hi, attr) {
      AttributeHolds(s, attr, c.token, q);
    }
  }

  lemma AttributeHolds(s: Sources, attr: string, t: Token, q: Path)
    ensures Holds(Provenance.Attribute(s, attr), t, q) <==>
            if attr in s.attributes.Keys then Holds(s, t, [attr] + q) else q == [] && Holds(s, t, q)
  {
    assert ([attr] + q)[1..] == q;
  }

  /** The namespace of declared arguments, as a value. */
  lemma InsideFits(lo: Vars, attributes: Env, hi: Vars, c: Tracing)
    requires FitsEnv(lo, attributes, hi, c) && attributes.Keys <= c.closed
    ensures Fits(Inside(lo), Sources({}, {}, attributes), Inside(hi), c)
  {
    var s := Sources({}, {}, attributes);
    forall n | n in s.attributes.Keys ensures n in c.closed && Known(s.attributes[n], c.closed) {
      assert Fits(At(lo, n), Spec.Look(attributes, n), At(hi, n), c);
    }
    forall q ensures (q in Inside(lo) ==> Holds(s, c.token, q)) && (Holds(s, c.token, q) ==> q in Inside(hi)) {
      if q != [] {
        assert Fits(At(lo, q[0]), Spec.Look(attributes, q[0]), At(hi, q[0]), c);
        assert q[1..] in At(lo, q[0]) <==> q in Inside(lo);
        assert q[1..] in At(hi, q[0]) <==> q in Inside(hi);
        LookHolds(attributes, q[0], c.token, q[1..]);
      }
    }
  }

  lemma LookHolds(attributes: Env, name: string, t: Token, q: Path)
    ensures Holds(Spec.Look(attributes, name), t, q) ==> name in attributes.Keys
  {
    if name !in attributes.Keys {
      assert !Holds(NOTHING, t, q);
    }
  }

  // ---- Variables ------------------------------------------------------------------------------------

  lemma LookFits(lo: Vars, env: Env, hi: Vars, c: Tracing, x: string)
    requires FitsEnv(lo, env, hi, c)
    ensures Fits(At(lo, x), Spec.Look(env, x), At(hi, x), c)
  {
  }

  lemma AtPut(vars: Vars, names: set<string>, paths: Paths, x: string)
    ensures At(vars + Put(names, paths), x) == At(vars, x) + if x in names then paths else NOWHERE
  {
  }

  lemma AtBoth(a: Vars, b: Vars, x: string)
    ensures At(a + b, x) == At(a, x) + At(b, x)
  {
  }

  lemma PutBoth(a: set<string>, b: set<string>, paths: Paths)
    ensures Put(a, paths) + Put(b, paths) == Put(a + b, paths)
  {
  }

  lemma GiveFits(lo: Vars, env: Env, hi: Vars, lv: Paths, value: Sources, hv: Paths, c: Tracing, id: string)
    requires FitsEnv(lo, env, hi, c) && Fits(lv, value, hv, c)
    ensures FitsEnv(lo + Put({id}, lv), env[id := Merge(Spec.Look(env, id), value)], hi + Put({id}, hv), c)
  {
    hide Fits, Merge, At, Put;
    var after := env[id := Merge(Spec.Look(env, id), value)];
    forall x ensures Fits(At(lo + Put({id}, lv), x), Spec.Look(after, x), At(hi + Put({id}, hv), x), c) {
      AtPut(lo, {id}, lv, x);
      AtPut(hi, {id}, hv, x);
      LookFits(lo, env, hi, c, x);
      if x == id {
        MergeFits(At(lo, x), Spec.Look(env, x), At(hi, x), lv, value, hv, c);
      } else {
        assert At(lo, x) + NOWHERE == At(lo, x) && At(hi, x) + NOWHERE == At(hi, x);
      }
    }
  }

  lemma NoTargets(vars: Vars, paths: Paths)
    ensures vars + Put({}, paths) == vars
  {
  }

  lemma {:induction false} AssignFits(lo: Vars, env: Env, hi: Vars, lv: Paths, value: Sources, hv: Paths, c: Tracing, target: Expr)
    requires FitsEnv(lo, env, hi, c) && Fits(lv, value, hv, c)
    ensures FitsEnv(lo + Put(Targets(target), lv), Spec.AssignTo(target, value, env), hi + Put(Targets(target), hv), c)
    decreases target
  {
    hide Fits, FitsEnv, Merge, Put;
    NoTargets(lo, lv);
    NoTargets(hi, hv);
    match target {
      case Name(id) =>
        GiveFits(lo, env, hi, lv, value, hv, c, id);
      case Elements(elements) =>
        AssignEachFits(lo, env, hi, lv, value, hv, c, elements);
      case _ =>
    }
  }

  lemma {:induction false} AssignEachFits(lo: Vars, env: Env, hi: Vars, lv: Paths, value: Sources, hv: Paths, c: Tracing, targets: seq<Expr>)
    requires FitsEnv(lo, env, hi, c) && Fits(lv, value, hv, c)
    ensures FitsEnv(lo + Put(AllTargets(targets), lv), Spec.AssignEach(targets, value, env), hi + Put(AllTargets(targets), hv), c)
    decreases targets
  {
    hide Fits, FitsEnv, Merge, Put;
    NoTargets(lo, lv);
    NoTargets(hi, hv);
    if targets != [] {
      var first, rest := Targets(targets[0]), AllTargets(targets[1..]);
      AssignFits(lo, env, hi, lv, value, hv, c, targets[0]);
      AssignEachFits(lo + Put(first, lv), Spec.AssignTo(targets[0], value, env), hi + Put(first, hv), lv, value, hv, c, targets[1..]);
      PutBoth(first, rest, lv);
      PutBoth(first, rest, hv);
      assert lo + Put(first, lv) + Put(rest, lv) == lo + (Put(first, lv) + Put(rest, lv));
      assert hi + Put(first, hv) + Put(rest, hv) == hi + (Put(first, hv) + Put(rest, hv));
    }
  }

  lemma JoinFits(lo: Vars, env: Env, hi: Vars, lb: Vars, branch: Env, hb: Vars, c: Tracing)
    requires FitsEnv(lo, env, hi, c) && FitsEnv(lb, branch, hb, c)
    ensures FitsEnv(lo + lb, Spec.JoinInto(env, branch), hi + hb, c)
  {
    hide Fits, Merge, At;
    var joined := Spec.JoinInto(env, branch);
    forall x ensures Fits(At(lo + lb, x), Spec.Look(joined, x), At(hi + hb, x), c) {
      AtBoth(lo, lb, x);
      AtBoth(hi, hb, x);
      LookFits(lo, env, hi, c, x);
      LookFits(lb, branch, hb, c, x);
      MergeFits(At(lo, x), Spec.Look(env, x), At(hi, x), At(lb, x), Spec.Look(branch, x), At(hb, x), c);
      JoinedLook(env, branch, x);
    }
  }

  lemma JoinedLook(env: Env, branch: Env, x: string)
    ensures Spec.Look(Spec.JoinInto(env, branch), x) == Merge(Spec.Look(env, x), Spec.Look(branch, x))
  {
    MergeNothing(Spec.Look(env, x));
    MergeNothing(NOTHING);
  }

  lemma BindOneFits(lo: Vars, env: Env, hi: Vars, lv: Paths, value: Sources, hv: Paths, c: Tracing, x: string)
    requires FitsEnv(lo, env, hi, c) && Fits(lv, value, hv, c)
    ensures FitsEnv(Without(lo, x) + Put({x}, lv), env[x := value], Without(hi, x) + Put({x}, hv), c)
  {
    hide Fits;
    forall y ensures Fits(At(Without(lo, x) + Put({x}, lv), y), Spec.Look(env[x := value], y), At(Without(hi, x) + Put({x}, hv), y), c) {
      LookFits(lo, env, hi, c, y);
      Rebound(lo, x, lv, y);
      Rebound(hi, x, hv, y);
    }
  }

  lemma Rebound(vars: Vars, x: string, paths: Paths, y: string)
    ensures At(Without(vars, x) + Put({x}, paths), y) == if y == x then paths else At(vars, y)
  {
  }

  // ---- Keywords ---------------------------------------------------------------------------------------

  lemma {:induction false} FindIsGiven(lo: ProducerFlow.Named, values: Spec.Named, hi: ProducerFlow.Named, c: Tracing, name: string)
    requires FitsNamed(lo, values, hi, c)
    ensures IsGiven(lo, name) <==> Spec.Find(values, name).Some?
    ensures IsGiven(hi, name) <==> Spec.Find(values, name).Some?
    ensures Spec.Find(values, name).Some? ==> Fits(Given(lo, name), Spec.Find(values, name).value, Given(hi, name), c)
    decreases |values|
  {
    hide Fits;
    if values != [] {
      FindIsGiven(lo[1..], values[1..], hi[1..], c, name);
      GivenSplits(lo, name);
      GivenSplits(hi, name);
    }
  }

  lemma GivenSplits(named: ProducerFlow.Named, name: string)
    requires named != []
    ensures IsGiven(named, name) <==> IsGiven(named[1..], name) || named[0].0 == name
    ensures Given(named, name) ==
            if IsGiven(named[1..], name) then Given(named[1..], name)
            else if named[0].0 == name then named[0].1 else NOWHERE
  {
    var rest := named[1..];
    assert forall i :: 0 <= i < |rest| ==> rest[i] == named[i + 1];
    if IsGiven(rest, name) {
      var i :| 0 <= i < |rest| && rest[i].0 == name;
      assert named[i + 1].0 == name;
    }
    KeptSplits(named);
    forall q ensures InGiven(named, name, q) <==>
        if IsGiven(rest, name) then InGiven(rest, name, q) else named[0].0 == name && q in named[0].1 {
      if InGiven(rest, name, q) {
        var i :| 0 <= i < |rest| && Kept(rest, i) && rest[i].0 == name && q in rest[i].1;
        assert Kept(named, i + 1);
      }
      if InGiven(named, name, q) {
        var i :| 0 <= i < |named| && Kept(named, i) && named[i].0 == name && q in named[i].1;
        assert i > 0 ==> Kept(rest, i - 1) && rest[i - 1].0 == name;
      }
      if !IsGiven(rest, name) && named[0].0 == name {
        assert Kept(named, 0);
      }
    }
  }

  lemma KeptSplits(named: ProducerFlow.Named)
    requires named != []
    ensures Kept(named, 0) <==> !IsGiven(named[1..], named[0].0)
    ensures forall i :: 0 <= i < |named[1..]| ==> (Kept(named[1..], i) <==> Kept(named, i + 1))
  {
    var rest := named[1..];
    assert forall i :: 0 <= i < |rest| ==> rest[i] == named[i + 1];
    if !Kept(named, 0) {
      var j :| 0 < j < |named| && named[j].0 == named[0].0;
      assert rest[j - 1].0 == named[0].0;
    }
    forall i | 0 <= i < |rest| ensures Kept(rest, i) <==> Kept(named, i + 1) {
      if !Kept(named, i + 1) {
        var j :| i + 1 < j < |named| && named[j].0 == named[i + 1].0;
        assert rest[j - 1].0 == rest[i].0;
      }
      if !Kept(rest, i) {
        var j :| i < j < |rest| && rest[j].0 == rest[i].0;
        assert named[j + 1].0 == named[i + 1].0;
      }
    }
  }

  lemma KeptTogether(named: ProducerFlow.Named)
    requires named != []
    ensures AllKept(named) == (if IsGiven(named[1..], named[0].0) then NOWHERE else named[0].1) + AllKept(named[1..])
  {
    var rest := named[1..];
    KeptSplits(named);
    forall q ensures InKept(named, q) <==> (!IsGiven(rest, named[0].0) && q in named[0].1) || InKept(rest, q) {
      if InKept(rest, q) {
        var i :| 0 <= i < |rest| && Kept(rest, i) && q in rest[i].1;
        assert Kept(named, i + 1) && q in named[i + 1].1;
      }
      if InKept(named, q) {
        var i :| 0 <= i < |named| && Kept(named, i) && q in named[i].1;
        assert i > 0 ==> Kept(rest, i - 1) && q in rest[i - 1].1;
      }
      if !IsGiven(rest, named[0].0) {
        assert Kept(named, 0);
      }
    }
  }

  lemma {:induction false} KeptFit(lo: ProducerFlow.Named, values: Spec.Named, hi: ProducerFlow.Named, c: Tracing)
    requires FitsNamed(lo, values, hi, c)
    ensures Fits(AllKept(lo), MergeAll(Spec.ValuesOf(values)), AllKept(hi), c)
    decreases |values|
  {
    hide Fits, Merge, AllKept, IsGiven;
    NothingFits(c);
    if values == [] {
      NoneKept(lo);
      NoneKept(hi);
    } else {
      KeptFit(lo[1..], values[1..], hi[1..], c);
      FindIsGiven(lo[1..], values[1..], hi[1..], c, values[0].0);
      KeptTogether(lo);
      KeptTogether(hi);
      var rest := MergeAll(Spec.ValuesOf(values[1..]));
      if Spec.Find(values[1..], values[0].0).None? {
        MergeFits(lo[0].1, values[0].1, hi[0].1, AllKept(lo[1..]), rest, AllKept(hi[1..]), c);
        assert Spec.ValuesOf(values) == [values[0].1] + Spec.ValuesOf(values[1..]);
        assert ([values[0].1] + Spec.ValuesOf(values[1..]))[1..] == Spec.ValuesOf(values[1..]);
      } else {
        assert Spec.ValuesOf(values) == Spec.ValuesOf(values[1..]);
        assert NOWHERE + AllKept(lo[1..]) == AllKept(lo[1..]) && NOWHERE + AllKept(hi[1..]) == AllKept(hi[1..]);
      }
    }
  }

  lemma NoneKept(named: ProducerFlow.Named)
    requires named == []
    ensures AllKept(named) == NOWHERE
  {
  }
}
