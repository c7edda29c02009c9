/** Where the value of an expression may come from: string literals, command line options, and attributes. */
module Provenance {

  datatype Sources = Sources(literals: set<string>, options: set<string>, attributes: map<string, Sources>)

  const NOTHING := Sources({}, {}, map[])

  function Attribute(s: Sources, name: string): Sources {
    if name in s.attributes then s.attributes[name] else Sources(s.literals, s.options, map[])
  }

  function Merge(a: Sources, b: Sources): Sources
    decreases a
  {
    Sources(
      a.literals + b.literals,
      a.options + b.options,
      map name | name in a.attributes.Keys + b.attributes.Keys ::
        if name !in a.attributes then b.attributes[name]
        else if name !in b.attributes then a.attributes[name]
        else Merge(a.attributes[name], b.attributes[name]))
  }

  function MergeAll(values: seq<Sources>): Sources {
    if values == [] then NOTHING else Merge(values[0], MergeAll(values[1..]))
  }

  lemma SameSources(a: Sources, b: Sources)
    requires a.literals == b.literals && a.options == b.options && a.attributes.Keys == b.attributes.Keys
    requires forall name :: name in a.attributes.Keys ==> a.attributes[name] == b.attributes[name]
    ensures a == b
  {
    assert a.attributes == b.attributes;
  }

  lemma {:induction false} MergeIsIdempotent(a: Sources)
    ensures Merge(a, a) == a
    decreases a
  {
    var m := Merge(a, a);
    forall name | name in a.attributes.Keys ensures m.attributes[name] == a.attributes[name] {
      MergeIsIdempotent(a.attributes[name]);
    }
    SameSources(m, a);
  }

  lemma {:induction false} MergeIsCommutative(a: Sources, b: Sources)
    ensures Merge(a, b) == Merge(b, a)
    decreases a
  {
    var m, n := Merge(a, b), Merge(b, a);
    forall name | name in m.attributes.Keys ensures m.attributes[name] == n.attributes[name] {
      if name in a.attributes && name in b.attributes {
        MergeIsCommutative(a.attributes[name], b.attributes[name]);
      }
    }
    SameSources(m, n);
  }

  lemma {:induction false} MergeIsAssociative(a: Sources, b: Sources, c: Sources)
    ensures Merge(Merge(a, b), c) == Merge(a, Merge(b, c))
    decreases a
  {
    var m, n := Merge(Merge(a, b), c), Merge(a, Merge(b, c));
    forall name | name in m.attributes.Keys ensures m.attributes[name] == n.attributes[name] {
      if name in a.attributes && name in b.attributes && name in c.attributes {
        MergeIsAssociative(a.attributes[name], b.attributes[name], c.attributes[name]);
      }
    }
    SameSources(m, n);
  }

  lemma MergeNothing(a: Sources)
    ensures Merge(a, NOTHING) == a && Merge(NOTHING, a) == a
  {
    SameSources(Merge(a, NOTHING), a);
    SameSources(Merge(NOTHING, a), a);
  }

  /** `b` says everything `a` says. */
  ghost predicate Includes(b: Sources, a: Sources) {
    Merge(a, b) == b
  }

  /** The merge is the least value that includes both. */
  lemma MergeIsLeast(a: Sources, b: Sources, c: Sources)
    ensures Includes(Merge(a, b), a) && Includes(Merge(a, b), b)
    ensures Includes(c, Merge(a, b)) <==> Includes(c, a) && Includes(c, b)
  {
    MergeIsAssociative(a, a, b);
    MergeIsIdempotent(a);
    MergeIsCommutative(a, b);
    MergeIsAssociative(b, b, a);
    MergeIsIdempotent(b);
    MergeIsAssociative(a, b, c);
    MergeIsAssociative(b, a, c);
    if Includes(c, Merge(a, b)) {
      MergeIsAssociative(a, Merge(a, b), c);
      MergeIsAssociative(b, Merge(b, a), c);
    }
  }

  /** Values included in the same values are the same. */
  lemma SameUpperBounds(a: Sources, b: Sources)
    requires forall c :: Includes(c, a) <==> Includes(c, b)
    ensures a == b
  {
    MergeIsIdempotent(a);
    MergeIsIdempotent(b);
    assert Includes(a, a) && Includes(b, b);
    MergeIsCommutative(a, b);
  }

  lemma MergeSwap(a: Sources, b: Sources, c: Sources)
    ensures Merge(a, Merge(b, c)) == Merge(b, Merge(a, c))
  {
    MergeIsAssociative(a, b, c);
    MergeIsCommutative(a, b);
    MergeIsAssociative(b, a, c);
  }

  lemma {:induction false} MergeAllAt(values: seq<Sources>, i: nat)
    requires i < |values|
    ensures MergeAll(values) == Merge(values[i], MergeAll(values[..i] + values[i + 1..]))
  {
    hide Merge;
    if i == 0 {
      assert values[..0] + values[1..] == values[1..];
    } else {
      var rest := values[1..];
      MergeAllAt(rest, i - 1);
      assert values[..i] + values[i + 1..] == [values[0]] + (rest[..i - 1] + rest[i..]);
      MergeSwap(values[0], values[i], MergeAll(rest[..i - 1] + rest[i..]));
    }
  }

  /** The order of what is merged does not matter. */
  lemma {:induction false} MergeAllIsOrderIndependent(a: seq<Sources>, b: seq<Sources>)
    requires multiset(a) == multiset(b)
    ensures MergeAll(a) == MergeAll(b)
    decreases |a|
  {
    if a == [] {
      assert |multiset(b)| == 0;
    } else {
      assert a[0] in multiset(b);
      var i :| 0 <= i < |b| && b[i] == a[0];
      assert a == [a[0]] + a[1..];
      assert b == b[..i] + [b[i]] + b[i + 1..];
      assert multiset(a) == multiset{a[0]} + multiset(a[1..]);
      assert multiset(b) == multiset{b[i]} + multiset(b[..i] + b[i + 1..]);
      assert multiset(a[1..]) == multiset(a) - multiset{a[0]};
      assert multiset(b[..i] + b[i + 1..]) == multiset(b) - multiset{b[i]};
      MergeAllAt(b, i);
      MergeAllIsOrderIndependent(a[1..], b[..i] + b[i + 1..]);
    }
  }

  /**
   * Reading an attribute keeps an inclusion exactly if the lesser value knows
   * the attribute, the greater one does not, or what the greater one knows
   * about it still says what the lesser one falls back on.
   */
  lemma AttributeIsMonotoneExactly(a: Sources, b: Sources, name: string)
    requires Includes(b, a)
    ensures Includes(Attribute(b, name), Attribute(a, name)) <==>
            name in a.attributes || name !in b.attributes
            || (a.literals <= b.attributes[name].literals && a.options <= b.attributes[name].options)
  {
    var m := Merge(a, b);
    assert m.literals == b.literals && m.options == b.options && m.attributes == b.attributes;
    assert name in a.attributes ==> name in m.attributes.Keys;
    if name in a.attributes {
      assert m.attributes[name] == Merge(a.attributes[name], b.attributes[name]);
    } else {
      var low, high := Attribute(a, name), Attribute(b, name);
      var both := Merge(low, high);
      assert both.literals == a.literals + high.literals && both.options == a.options + high.options;
      forall x | x in both.attributes.Keys ensures both.attributes[x] == high.attributes[x] {
      }
      assert both.attributes.Keys == high.attributes.Keys;
      if a.literals <= high.literals && a.options <= high.options {
        SameSources(both, high);
      }
    }
  }

  /** Reading an attribute is not monotone: learning about an attribute can hide the literals. */
  lemma AttributeIsNotMonotone()
    ensures var a, b := Sources({"out"}, {}, map[]), Sources({"out"}, {}, map["path" := NOTHING]);
            Includes(b, a) && !Includes(Attribute(b, "path"), Attribute(a, "path"))
  {
    var a, b := Sources({"out"}, {}, map[]), Sources({"out"}, {}, map["path" := NOTHING]);
    assert Attribute(a, "path") == a;
    assert Attribute(b, "path") == NOTHING;
    SameSources(Merge(a, b), b);
    MergeNothing(a);
    assert "out" in a.literals;
  }
}
