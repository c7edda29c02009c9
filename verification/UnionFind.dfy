/** Union-find over observation indices, with path halving and union by size. */
module UnionFind {

  function Pow2(n: nat): nat {
    if n == 0 then 1 else 2 * Pow2(n - 1)
  }

  lemma Pow2OfFourteen()
    ensures Pow2(14) == 16_384
  {
    assert Pow2(4) == 16 && Pow2(8) == 16 * Pow2(4) && Pow2(12) == 16 * Pow2(8);
  }

  /** A class of ten thousand is no deeper than thirteen. */
  lemma FewHops(hops: nat)
    ensures Pow2(hops) <= 10_000 ==> hops <= 13
  {
    if hops >= 14 {
      Pow2Monotone(14, hops);
      Pow2OfFourteen();
    }
  }

  lemma {:induction false} Pow2Monotone(m: nat, n: nat)
    requires m <= n
    ensures Pow2(m) <= Pow2(n)
    decreases n - m
  {
    if m < n {
      Pow2Monotone(m, n - 1);
    }
  }

  /** The indices whose root is `r`. */
  ghost function ClassOf(root: seq<nat>, r: nat): set<nat> {
    set x: nat | x < |root| && root[x] == r
  }

  ghost function Merged(root: seq<nat>, from: nat, into: nat): (merged: seq<nat>)
    ensures |merged| == |root|
  {
    seq(|root|, x requires 0 <= x < |root| => if root[x] == from then into else root[x])
  }

  lemma MergedClasses(root: seq<nat>, from: nat, into: nat)
    requires from != into
    ensures |ClassOf(Merged(root, from, into), into)| == |ClassOf(root, into)| + |ClassOf(root, from)|
    ensures forall r | r != from && r != into :: ClassOf(Merged(root, from, into), r) == ClassOf(root, r)
  {
    assert ClassOf(Merged(root, from, into), into) == ClassOf(root, into) + ClassOf(root, from);
    assert ClassOf(root, into) !! ClassOf(root, from);
  }

  lemma {:induction false} ClassBound(root: seq<nat>, r: nat)
    ensures |ClassOf(root, r)| <= |root|
    decreases |root|
  {
    if root != [] {
      var k := |root| - 1;
      ClassBound(root[..k], r);
      assert ClassOf(root, r) == ClassOf(root[..k], r) + if root[k] == r then {k} else {};
    }
  }

  /** The parent of `x` is on the way to its root, and of higher rank. */
  ghost predicate Node(parents: seq<nat>, root: seq<nat>, rank: seq<nat>, x: nat) {
    && |parents| == |root| == |rank| && x < |root| && parents[x] < |root| && root[x] < |root|
    && parents[root[x]] == root[x] && root[root[x]] == root[x] && root[parents[x]] == root[x]
    && rank[x] <= rank[root[x]]
    && (if parents[x] == x then root[x] == x else rank[x] < rank[parents[x]])
  }

  /** A root's size is that of its class, and bounds its rank. */
  ghost predicate Root(sizes: seq<nat>, root: seq<nat>, rank: seq<nat>, r: nat) {
    && r < |root| == |sizes| == |rank|
    && (root[r] == r ==> sizes[r] == |ClassOf(root, r)| && Pow2(rank[r]) <= sizes[r])
  }

  ghost predicate Forest(parents: seq<nat>, sizes: seq<nat>, root: seq<nat>, rank: seq<nat>) {
    && |parents| == |sizes| == |root| == |rank|
    && (forall x: nat | x < |root| :: Node(parents, root, rank, x))
    && (forall r: nat | r < |root| :: Root(sizes, root, rank, r))
  }

  /** Pointing a node at its grandparent keeps the forest. */
  lemma HalvingKeepsForest(parents: seq<nat>, sizes: seq<nat>, root: seq<nat>, rank: seq<nat>, x: nat)
    requires Forest(parents, sizes, root, rank) && x < |root| && parents[x] != x
    ensures parents[x] < |root| && parents[parents[x]] < |root|
    ensures Forest(parents[x := parents[parents[x]]], sizes, root, rank)
    ensures rank[x] < rank[parents[parents[x]]] && root[parents[parents[x]]] == root[x]
  {
    assert Node(parents, root, rank, x);
    var p := parents[x];
    assert Node(parents, root, rank, p);
    var halved := parents[x := parents[p]];
    forall y: nat | y < |root| ensures Node(halved, root, rank, y) {
      assert Node(parents, root, rank, y);
    }
  }

  function Higher(a: nat, b: nat): nat {
    if a < b then b else a
  }

  /** Hanging the root of the smaller class below that of the larger keeps the forest. */
  lemma UnionKeepsForest(parents: seq<nat>, sizes: seq<nat>, root: seq<nat>, rank: seq<nat>, from: nat, into: nat)
    requires Forest(parents, sizes, root, rank)
    requires from < |root| && into < |root| && from != into && root[from] == from && root[into] == into
    requires sizes[from] <= sizes[into]
    ensures Forest(parents[from := into], sizes[into := sizes[into] + sizes[from]], Merged(root, from, into),
                   rank[into := Higher(rank[into], rank[from] + 1)])
  {
    var parents', sizes' := parents[from := into], sizes[into := sizes[into] + sizes[from]];
    var root', rank' := Merged(root, from, into), rank[into := Higher(rank[into], rank[from] + 1)];
    MergedClasses(root, from, into);
    assert Root(sizes, root, rank, from) && Root(sizes, root, rank, into);
    assert Node(parents, root, rank, from) && Node(parents, root, rank, into);
    forall x: nat | x < |root| ensures Node(parents', root', rank', x) {
      assert Node(parents, root, rank, x);
      assert Node(parents, root, rank, parents[x]);
    }
    forall r: nat | r < |root| ensures Root(sizes', root', rank', r) {
      assert Root(sizes, root, rank, r);
    }
  }

  class Components {
    const parents: array<nat>
    const sizes: array<nat>
    ghost var root: seq<nat>
    ghost var rank: seq<nat>

    ghost predicate Valid()
      reads this, parents, sizes
    {
      parents != sizes && Forest(parents[..], sizes[..], root, rank)
    }

    constructor (count: nat)
      ensures Valid() && fresh(parents) && fresh(sizes)
      ensures root == seq(count, (i: nat) => i)
    {
      parents := new nat[count](i => i);
      sizes := new nat[count](_ => 1);
      root := seq(count, (i: nat) => i);
      rank := seq(count, _ => 0);
      new;
      forall x: nat | x < count ensures Node(parents[..], root, rank, x) && Root(sizes[..], root, rank, x) {
        assert ClassOf(root, x) == {x};
      }
    }

    /** Returns the root, after at most log2 of the class size parent hops. */
    method Find(index: nat) returns (r: nat, ghost hops: nat)
      requires Valid() && index < |root|
      modifies parents
      ensures Valid() && r == root[index] && r < |root| && root[r] == r
      ensures Pow2(hops) <= |ClassOf(root, r)| <= |root|
      ensures |root| <= 10_000 ==> hops <= 13
    {
      var i: nat := index;
      hops := 0;
      assert parents.Length == |parents[..]| == |root| == |rank|;
      assert Node(parents[..], root, rank, i);
      while parents[i] != i
        invariant i < |root| == |rank| == parents.Length && Valid() && root[i] == root[index]
        invariant rank[index] + hops <= rank[i] && Node(parents[..], root, rank, i)
        decreases rank[root[i]] - rank[i]
      {
        HalvingKeepsForest(parents[..], sizes[..], root, rank, i);
        ghost var before := parents[..];
        assert Node(before, root, rank, before[i]);
        assert Node(before, root, rank, before[before[i]]);
        parents[i] := parents[parents[i]];
        assert parents[..] == before[i := before[before[i]]];
        i := parents[i];
        hops := hops + 1;
        assert Node(parents[..], root, rank, i);
      }
      r := i;
      assert Root(sizes[..], root, rank, r);
      Pow2Monotone(hops, rank[r]);
      ClassBound(root, r);
      FewHops(hops);
    }

    method Union(left: nat, right: nat)
      requires Valid() && left < |root| && right < |root|
      modifies this, parents, sizes
      ensures Valid()
      ensures var a, b := old(root[left]), old(root[right]);
              root == Merged(old(root), a, b) || root == Merged(old(root), b, a)
    {
      var leftRoot, _ := Find(left);
      var rightRoot, _ := Find(right);
      if leftRoot == rightRoot {
        assert root == Merged(root, leftRoot, leftRoot);
        return;
      }
      if sizes[leftRoot] < sizes[rightRoot] {
        leftRoot, rightRoot := rightRoot, leftRoot;
      }
      UnionKeepsForest(parents[..], sizes[..], root, rank, rightRoot, leftRoot);
      ghost var p, s := parents[..], sizes[..];
      parents[rightRoot] := leftRoot;
      sizes[leftRoot] := sizes[leftRoot] + sizes[rightRoot];
      root, rank := Merged(root, rightRoot, leftRoot), rank[leftRoot := Higher(rank[leftRoot], rank[rightRoot] + 1)];
      assert parents[..] == p[rightRoot := leftRoot];
      assert sizes[..] == s[leftRoot := s[leftRoot] + s[rightRoot]];
    }
  }
}
