/** The leakage-safe split: observations linked by shared events or sessions stay together,
    and whole components are given to roles. */
module RelationSplit {
  import opened Wrappers
  import opened Sorting
  import opened Text
  import opened UnionFind
  import opened Balance

  const MAX_TOTAL_OBSERVATIONS := 10_000

  /** The axes on which roles must not overlap; the other axes do not steer the split. */
  datatype Observation = Observation(id: string, event: string, session: string)

  datatype Axis = Event | Session

  function GroupOf(o: Observation, axis: Axis): string {
    match axis case Event => o.event case Session => o.session
  }

  // ---- Linked observations -----------------------------------------------------------

  predicate Shares(o: Observation, p: Observation) {
    o.event == p.event || o.session == p.session
  }

  ghost predicate Chain(all: set<Observation>, path: seq<Observation>) {
    && path != [] && (forall k | 0 <= k < |path| :: path[k] in all)
    && forall k | 0 <= k < |path| - 1 :: Shares(path[k], path[k + 1])
  }

  ghost predicate ChainBetween(all: set<Observation>, path: seq<Observation>, o: Observation, p: Observation) {
    Chain(all, path) && path[0] == o && path[|path| - 1] == p
  }

  /** A chain of shared events and sessions leads from `o` to `p`. */
  ghost predicate Linked(all: set<Observation>, o: Observation, p: Observation) {
    exists path :: ChainBetween(all, path, o, p)
  }

  lemma SharingLinks(all: set<Observation>, o: Observation, p: Observation)
    requires o in all && p in all && Shares(o, p)
    ensures Linked(all, o, p)
  {
    assert ChainBetween(all, [o, p], o, p);
  }

  lemma LinkedTransitive(all: set<Observation>, o: Observation, p: Observation, q: Observation)
    requires Linked(all, o, p) && Linked(all, p, q)
    ensures Linked(all, o, q)
  {
    var s :| ChainBetween(all, s, o, p);
    var t :| ChainBetween(all, t, p, q);
    assert ChainBetween(all, s + t, o, q);
  }

  lemma LinkedSymmetric(all: set<Observation>, o: Observation, p: Observation)
    requires Linked(all, o, p)
    ensures Linked(all, p, o)
  {
    var s :| ChainBetween(all, s, o, p);
    var n := |s|;
    var t := seq(n, k requires 0 <= k < n => s[n - 1 - k]);
    forall k | 0 <= k < n - 1 ensures Shares(t[k], t[k + 1]) {
      assert Shares(s[n - 2 - k], s[n - 2 - k + 1]);
    }
    assert ChainBetween(all, t, p, o);
  }

  // ---- Linking by union-find ---------------------------------------------------------

  function Members(observations: seq<Observation>): set<Observation> {
    set o | o in observations
  }

  /** Indices with one root are linked. */
  ghost predicate Sound(observations: seq<Observation>, root: seq<nat>) {
    && |root| == |observations|
    && forall i, j | 0 <= i < |root| && 0 <= j < |root| && root[i] == root[j] ::
         Linked(Members(observations), observations[i], observations[j])
  }

  /** `first` remembers an index of every group seen. */
  ghost predicate Remembers(observations: seq<Observation>, first: map<(Axis, string), nat>) {
    forall key | key in first :: first[key] < |observations| && GroupOf(observations[first[key]], key.0) == key.1
  }

  ghost predicate Anchored(observations: seq<Observation>, root: seq<nat>, first: map<(Axis, string), nat>, i: nat, axis: Axis)
    requires i < |observations| == |root| && Remembers(observations, first)
  {
    var key := (axis, GroupOf(observations[i], axis));
    key in first && root[i] == root[first[key]]
  }

  ghost predicate AllAnchored(observations: seq<Observation>, root: seq<nat>, first: map<(Axis, string), nat>, n: nat)
    requires n <= |observations| == |root| && Remembers(observations, first)
  {
    forall i: nat, axis | i < n :: Anchored(observations, root, first, i, axis)
  }

  lemma MergeIsSound(observations: seq<Observation>, root: seq<nat>, root': seq<nat>, i: nat, j: nat)
    requires Sound(observations, root) && i < |root| && j < |root|
    requires Linked(Members(observations), observations[i], observations[j])
    requires root' == Merged(root, root[i], root[j]) || root' == Merged(root, root[j], root[i])
    ensures Sound(observations, root')
  {
    var all := Members(observations);
    LinkedSymmetric(all, observations[i], observations[j]);
    forall x: nat, y: nat | x < |root'| && y < |root'| && root'[x] == root'[y]
      ensures Linked(all, observations[x], observations[y])
    {
      if root[x] != root[y] {
        var s, t := if root[x] == root[i] then i else j, if root[y] == root[i] then i else j;
        assert root[x] == root[s] && root[t] == root[y];
        LinkedTransitive(all, observations[x], observations[s], observations[t]);
        LinkedTransitive(all, observations[x], observations[t], observations[y]);
      }
    }
  }

  /** Unions one observation with the first of its group on one axis. */
  method LinkAxis(c: Components, observations: seq<Observation>, index: nat, axis: Axis,
                  first: map<(Axis, string), nat>) returns (first': map<(Axis, string), nat>)
    requires c.Valid() && Sound(observations, c.root) && Remembers(observations, first)
    requires index < |observations|
    modifies c, c.parents, c.sizes
    ensures c.Valid() && Sound(observations, c.root) && Remembers(observations, first')
    ensures Anchored(observations, c.root, first', index, axis)
    ensures forall i: nat, a | i < |observations| && old(Anchored(observations, c.root, first, i, a)) ::
              Anchored(observations, c.root, first', i, a)
  {
    hide Forest, Linked;
    var key := (axis, GroupOf(observations[index], axis));
    var other := if key in first then first[key] else index;
    first' := first[key := other];
    ghost var root := c.root;
    SharingLinks(Members(observations), observations[index], observations[other]);
    MergeIsSound(observations, root, Merged(root, root[index], root[other]), index, other);
    MergeIsSound(observations, root, Merged(root, root[other], root[index]), index, other);
    hide Sound;
    c.Union(index, other);
  }

  /** After all unions, two indices have one root exactly if their observations are linked. */
  method LinkObservations(observations: seq<Observation>) returns (c: Components)
    ensures c.Valid() && fresh(c) && fresh(c.parents) && fresh(c.sizes) && |c.root| == |observations|
    ensures forall i, j | 0 <= i < |observations| && 0 <= j < |observations| ::
      c.root[i] == c.root[j] <==> Linked(Members(observations), observations[i], observations[j])
  {
    hide Linked, Forest, Remembers, Merged;
    c := new Components(|observations|);
    NothingMergedIsSound(observations, c.root);
    var first: map<(Axis, string), nat> := map[];
    NothingAnchored(observations, c.root);
    for index := 0 to |observations|
      invariant c.Valid() && Sound(observations, c.root) && Remembers(observations, first)
      invariant fresh(c) && fresh(c.parents) && fresh(c.sizes)
      invariant AllAnchored(observations, c.root, first, index)
    {
      hide Sound;
      first := LinkAxis(c, observations, index, Event, first);
      assert AllAnchored(observations, c.root, first, index);
      first := LinkAxis(c, observations, index, Session, first);
      forall i: nat, axis | i < index + 1 ensures Anchored(observations, c.root, first, i, axis) {
        assert i == index ==> axis == Event || axis == Session;
      }
    }
    forall i: nat, j: nat | i < |observations| && j < |observations| &&
                            Linked(Members(observations), observations[i], observations[j])
      ensures c.root[i] == c.root[j]
    {
      LinkedHaveOneRoot(observations, c.root, first, i, j);
    }
  }

  lemma NothingMergedIsSound(observations: seq<Observation>, root: seq<nat>)
    requires root == seq(|observations|, (i: nat) => i)
    ensures Sound(observations, root)
  {
    forall i, j | 0 <= i < |observations| && 0 <= j < |observations| && root[i] == root[j]
      ensures Linked(Members(observations), observations[i], observations[j])
    {
      SharingLinks(Members(observations), observations[i], observations[j]);
    }
  }

  lemma NothingAnchored(observations: seq<Observation>, root: seq<nat>)
    requires |root| == |observations|
    ensures Remembers(observations, map[]) && AllAnchored(observations, root, map[], 0)
  {
  }

  lemma LinkedHaveOneRoot(observations: seq<Observation>, root: seq<nat>, first: map<(Axis, string), nat>, i: nat, j: nat)
    requires |root| == |observations| && Remembers(observations, first)
    requires AllAnchored(observations, root, first, |observations|) && i < |root| && j < |root|
    requires Linked(Members(observations), observations[i], observations[j])
    ensures root[i] == root[j]
  {
    var path :| ChainBetween(Members(observations), path, observations[i], observations[j]);
    ChainHasOneRoot(observations, root, first, path, i, j);
  }

  lemma {:induction false} ChainHasOneRoot(observations: seq<Observation>, root: seq<nat>, first: map<(Axis, string), nat>,
                                           path: seq<Observation>, i: nat, j: nat)
    requires |root| == |observations| && Remembers(observations, first)
    requires AllAnchored(observations, root, first, |observations|)
    requires i < |root| && j < |root|
    requires ChainBetween(Members(observations), path, observations[i], observations[j])
    ensures root[i] == root[j]
    decreases |path|
  {
    if |path| == 1 {
      SharersHaveOneRoot(observations, root, first, i, j);
    } else {
      assert path[1] in Members(observations);
      var k: nat :| k < |observations| && observations[k] == path[1];
      assert Shares(path[0], path[1]);
      SharersHaveOneRoot(observations, root, first, i, k);
      forall l | 0 <= l < |path[1..]| - 1 ensures Shares(path[1..][l], path[1..][l + 1]) {
        assert Shares(path[l + 1], path[l + 2]);
      }
      assert ChainBetween(Members(observations), path[1..], observations[k], observations[j]);
      ChainHasOneRoot(observations, root, first, path[1..], k, j);
    }
  }

  lemma SharersHaveOneRoot(observations: seq<Observation>, root: seq<nat>, first: map<(Axis, string), nat>, i: nat, j: nat)
    requires |root| == |observations| && Remembers(observations, first)
    requires AllAnchored(observations, root, first, |observations|)
    requires i < |root| && j < |root| && Shares(observations[i], observations[j])
    ensures root[i] == root[j]
  {
    var axis := if observations[i].event == observations[j].event then Event else Session;
    assert Anchored(observations, root, first, i, axis) && Anchored(observations, root, first, j, axis);
  }

  // ---- Components in order -----------------------------------------------------------

  predicate ById(o: Observation, p: Observation) {
    StringLe(o.id, p.id)
  }

  function FirstId(c: seq<Observation>): string {
    if c == [] then "" else c[0].id
  }

  /** Larger components first, then by the first identifier. */
  predicate Precedes(c: seq<Observation>, d: seq<Observation>) {
    |c| > |d| || (|c| == |d| && StringLe(FirstId(c), FirstId(d)))
  }

  lemma OrdersArePreorders()
    ensures Preorder(ById) && Preorder(Precedes)
    ensures (forall o :: ById(o, o)) && forall c :: Precedes(c, c)
  {
    StringLeIsTotalOrder();
  }

  ghost predicate DistinctIds(all: set<Observation>) {
    forall o, p | o in all && p in all && o.id == p.id :: o == p
  }

  /** `c` lists one class of linked observations, by identifier. */
  ghost predicate IsClass(all: set<Observation>, c: seq<Observation>) {
    && c != [] && Distinct(c)
    && (forall i, j | 0 <= i < j < |c| :: StringLe(c[i].id, c[j].id))
    && (forall o | o in c :: o in all)
    && forall o, p | o in c && p in all :: p in c <==> Linked(all, o, p)
  }

  /** Larger components come first, and of equally large ones that with the least identifier. */
  ghost predicate LargestFirst(comps: seq<seq<Observation>>) {
    forall i, j | 0 <= i < j < |comps| ::
      |comps[i]| > |comps[j]| ||
      (|comps[i]| == |comps[j]| && exists o :: o in comps[i] && forall p | p in comps[j] :: StringLe(o.id, p.id))
  }

  /** `comps` lists every class once, in that order. */
  ghost predicate IsComponentList(all: set<Observation>, comps: seq<seq<Observation>>) {
    && (forall c | c in comps :: IsClass(all, c))
    && (forall o | o in all :: exists c :: c in comps && o in c)
    && LargestFirst(comps) && Distinct(comps)
  }

  lemma LeastIsFirst(all: set<Observation>, c: seq<Observation>, o: Observation)
    requires IsClass(all, c) && o in c
    ensures StringLe(FirstId(c), o.id)
  {
    OrdersArePreorders();
    var i :| 0 <= i < |c| && c[i] == o;
    assert ById(c[0], c[0]);
  }

  /** The order in which the components are sorted is the one promised. */
  lemma SortedIsLargestFirst(all: set<Observation>, comps: seq<seq<Observation>>)
    requires forall c | c in comps :: IsClass(all, c)
    ensures Sorted(Precedes, comps) <==> LargestFirst(comps)
  {
    StringLeIsTotalOrder();
    forall i, j | 0 <= i < j < |comps|
      ensures Precedes(comps[i], comps[j]) <==>
              |comps[i]| > |comps[j]| ||
              (|comps[i]| == |comps[j]| && exists o :: o in comps[i] && forall p | p in comps[j] :: StringLe(o.id, p.id))
    {
      assert comps[i] in comps && comps[j] in comps;
      FirstsAreLeast(all, comps[i], comps[j]);
    }
  }

  lemma FirstsAreLeast(all: set<Observation>, c: seq<Observation>, d: seq<Observation>)
    requires IsClass(all, c) && IsClass(all, d)
    ensures StringLe(FirstId(c), FirstId(d)) <==> exists o :: o in c && forall p | p in d :: StringLe(o.id, p.id)
  {
    assert c[0] in c && d[0] in d;
    if StringLe(FirstId(c), FirstId(d)) {
      forall p | p in d ensures StringLe(c[0].id, p.id) {
        LeastIsFirst(all, d, p);
        LeTransitive(FirstId(c), FirstId(d), p.id);
      }
    }
    if o :| o in c && forall p | p in d :: StringLe(o.id, p.id) {
      LeastIsFirst(all, c, o);
      LeTransitive(FirstId(c), o.id, FirstId(d));
    }
  }

  lemma ClassesMeetOnce(all: set<Observation>, c: seq<Observation>, d: seq<Observation>, o: Observation)
    requires DistinctIds(all) && IsClass(all, c) && IsClass(all, d) && o in c && o in d
    ensures c == d
  {
    OrdersArePreorders();
    ClassHasNoTies(all, c);
    ClassHasNoTies(all, d);
    forall p ensures p in c <==> p in d {
      if p in c { assert p in all; }
      if p in d { assert p in all; }
    }
    SortedWithoutTies(ById, c, d);
  }

  lemma ClassHasNoTies(all: set<Observation>, c: seq<Observation>)
    requires DistinctIds(all) && IsClass(all, c)
    ensures NoTies(ById, c)
  {
    StringLeIsTotalOrder();
    forall i, j | 0 <= i < |c| && 0 <= j < |c| && i != j ensures !(ById(c[i], c[j]) && ById(c[j], c[i])) {
      assert c[i] in c && c[j] in c && c[i] != c[j];
    }
  }

  lemma ListHasNoTies(all: set<Observation>, comps: seq<seq<Observation>>)
    requires DistinctIds(all) && IsComponentList(all, comps)
    ensures NoTies(Precedes, comps)
  {
    StringLeIsTotalOrder();
    forall i, j | 0 <= i < |comps| && 0 <= j < |comps| && i != j
      ensures !(Precedes(comps[i], comps[j]) && Precedes(comps[j], comps[i]))
    {
      var c, d := comps[i], comps[j];
      assert c in comps && d in comps && c != d && c[0] in c && d[0] in d;
      if c[0].id == d[0].id {
        ClassesMeetOnce(all, c, d, c[0]);
      }
    }
  }

  lemma ListContains(all: set<Observation>, comps: seq<seq<Observation>>, comps': seq<seq<Observation>>, c: seq<Observation>)
    requires DistinctIds(all) && IsComponentList(all, comps) && IsComponentList(all, comps') && c in comps
    ensures c in comps'
  {
    assert c[0] in c && c[0] in all;
    var d :| d in comps' && c[0] in d;
    ClassesMeetOnce(all, c, d, c[0]);
  }

  /** The component list depends on the set of observations alone. */
  lemma ComponentListIsUnique(all: set<Observation>, comps: seq<seq<Observation>>, comps': seq<seq<Observation>>)
    requires DistinctIds(all) && IsComponentList(all, comps) && IsComponentList(all, comps')
    ensures comps == comps'
  {
    OrdersArePreorders();
    SortedIsLargestFirst(all, comps);
    SortedIsLargestFirst(all, comps');
    ListHasNoTies(all, comps);
    ListHasNoTies(all, comps');
    forall c ensures c in comps <==> c in comps' {
      if c in comps { ListContains(all, comps, comps', c); }
      if c in comps' { ListContains(all, comps', comps, c); }
    }
    SortedWithoutTies(Precedes, comps, comps');
  }

  /** One of the first `n` indices has root `r` and observation `o`. */
  ghost predicate Occurs(observations: seq<Observation>, root: seq<nat>, n: nat, r: nat, o: Observation)
    requires n <= |observations| == |root|
  {
    exists i :: 0 <= i < n && root[i] == r && observations[i] == o
  }

  /** Each root's observations, in the order of the input. */
  ghost predicate GroupsByRoot(observations: seq<Observation>, root: seq<nat>, n: nat, members: map<nat, seq<Observation>>)
    requires n <= |observations| == |root|
  {
    && (forall r | r in members :: members[r] != [] && Distinct(members[r]))
    && (forall r, o | r in members && o in members[r] :: Occurs(observations, root, n, r, o))
    && (forall i | 0 <= i < n :: root[i] in members && observations[i] in members[root[i]])
  }

  method GroupMembers(c: Components, observations: seq<Observation>) returns (members: map<nat, seq<Observation>>)
    requires c.Valid() && |c.root| == |observations| && Distinct(observations)
    modifies c.parents
    ensures GroupsByRoot(observations, c.root, |observations|, members)
  {
    members := map[];
    for index := 0 to |observations|
      invariant c.Valid()
      invariant GroupsByRoot(observations, c.root, index, members)
    {
      var r, _ := c.Find(index);
      GroupOneMore(observations, c.root, index, members);
      members := members[r := (if r in members then members[r] else []) + [observations[index]]];
    }
  }

  lemma GroupOneMore(observations: seq<Observation>, root: seq<nat>, n: nat, members: map<nat, seq<Observation>>)
    requires n < |observations| == |root| && Distinct(observations)
    requires GroupsByRoot(observations, root, n, members)
    ensures var r := root[n];
            GroupsByRoot(observations, root, n + 1,
                         members[r := (if r in members then members[r] else []) + [observations[n]]])
  {
    var r, o := root[n], observations[n];
    var more := (if r in members then members[r] else []) + [o];
    var members' := members[r := more];
    if r in members {
      MoreIsDistinct(observations, root, n, members);
    }
    hide Distinct;
    forall q, p | q in members' && p in members'[q] ensures Occurs(observations, root, n + 1, q, p) {
      if q in members && p in members[q] {
        assert Occurs(observations, root, n, q, p);
      } else {
        assert root[n] == q && observations[n] == p;
      }
    }
    forall i | 0 <= i < n + 1 ensures root[i] in members' && observations[i] in members'[root[i]] {
      assert i < n ==> root[i] in members && observations[i] in members[root[i]];
      assert o in more;
    }
  }

  lemma MoreIsDistinct(observations: seq<Observation>, root: seq<nat>, n: nat, members: map<nat, seq<Observation>>)
    requires n < |observations| == |root| && Distinct(observations) && root[n] in members
    requires GroupsByRoot(observations, root, n, members)
    ensures Distinct(members[root[n]] + [observations[n]])
  {
    var there := members[root[n]];
    assert Distinct(there);
    forall k | 0 <= k < |there| ensures there[k] != observations[n] {
      assert there[k] in there && Occurs(observations, root, n, root[n], there[k]);
    }
  }

  lemma SortedGroupIsClass(observations: seq<Observation>, root: seq<nat>, members: map<nat, seq<Observation>>, r: nat)
    requires |root| == |observations| && GroupsByRoot(observations, root, |observations|, members) && r in members
    requires forall i, j | 0 <= i < |observations| && 0 <= j < |observations| ::
      root[i] == root[j] <==> Linked(Members(observations), observations[i], observations[j])
    ensures IsClass(Members(observations), Sort(ById, members[r]))
  {
    var all, c := Members(observations), Sort(ById, members[r]);
    OrdersArePreorders();
    SortSorts(ById, members[r]);
    DistinctPermutation(members[r], c);
    MultisetMembers(members[r], c);
    forall o | o in c ensures o in all {
      assert Occurs(observations, root, |root|, r, o);
    }
    forall o, p | o in c && p in all ensures p in c <==> Linked(all, o, p) {
      assert Occurs(observations, root, |root|, r, o);
      var i :| 0 <= i < |root| && root[i] == r && observations[i] == o;
      var j :| 0 <= j < |observations| && observations[j] == p;
      if p in c {
        assert Occurs(observations, root, |root|, r, p);
        var k :| 0 <= k < |root| && root[k] == r && observations[k] == p;
        assert root[i] == root[k];
      } else {
        assert root[j] != r;
      }
    }
  }

  method AssignmentComponents(observations: seq<Observation>) returns (comps: seq<seq<Observation>>)
    requires Distinct(observations) && DistinctIds(Members(observations))
    ensures IsComponentList(Members(observations), comps)
  {
    var c := LinkObservations(observations);
    ghost var root := c.root;
    var members := GroupMembers(c, observations);
    hide Linked, IsComponentList, GroupsByRoot, Sort;
    var listed: seq<seq<Observation>> := [];
    var rest := members.Keys;
    ghost var done: set<nat> := {};
    assert Lists(members, done, listed);
    while rest != {}
      invariant rest !! done && rest + done == members.Keys
      invariant Lists(members, done, listed)
    {
      var r :| r in rest;
      ListOneMore(observations, root, members, done, listed, r);
      listed := listed + [Sort(ById, members[r])];
      rest, done := rest - {r}, done + {r};
    }
    assert done == members.Keys;
    ListedAreComponents(observations, root, members, listed);
    comps := Sort(Precedes, listed);
  }

  /** `listed` holds the sorted groups of the roots in `done`, each once. */
  ghost predicate Lists(members: map<nat, seq<Observation>>, done: set<nat>, listed: seq<seq<Observation>>)
    requires done <= members.Keys
  {
    Distinct(listed) && forall d :: d in listed <==> exists r :: r in done && d == Sort(ById, members[r])
  }

  lemma AppendNew<T(!new)>(s: seq<T>, x: T)
    requires Distinct(s) && x !in s
    ensures Distinct(s + [x])
  {
  }

  lemma ListOneMore(observations: seq<Observation>, root: seq<nat>, members: map<nat, seq<Observation>>,
                    done: set<nat>, listed: seq<seq<Observation>>, r: nat)
    requires |root| == |observations| && Distinct(observations)
    requires GroupsByRoot(observations, root, |observations|, members)
    requires done <= members.Keys && r in members && r !in done && Lists(members, done, listed)
    ensures Lists(members, done + {r}, listed + [Sort(ById, members[r])])
  {
    hide Sort, GroupsByRoot, Distinct;
    var d := Sort(ById, members[r]);
    forall q | q in done ensures d != Sort(ById, members[q]) {
      GroupsDiffer(observations, root, members, q, r);
    }
    ListNew(members, done, listed, r);
  }

  lemma ListNew(members: map<nat, seq<Observation>>, done: set<nat>, listed: seq<seq<Observation>>, r: nat)
    requires done <= members.Keys && r in members && Lists(members, done, listed)
    requires forall q | q in done :: Sort(ById, members[r]) != Sort(ById, members[q])
    ensures Lists(members, done + {r}, listed + [Sort(ById, members[r])])
  {
    hide Sort, Distinct;
    var d := Sort(ById, members[r]);
    assert d !in listed;
    AppendNew(listed, d);
    forall e ensures e in listed + [d] <==> exists q :: q in done + {r} && e == Sort(ById, members[q]) {
      if e == d {
        assert r in done + {r};
      } else if e in listed {
        var q :| q in done && e == Sort(ById, members[q]);
        assert q in done + {r};
      }
    }
  }

  lemma ListedAreComponents(observations: seq<Observation>, root: seq<nat>, members: map<nat, seq<Observation>>,
                            listed: seq<seq<Observation>>)
    requires |root| == |observations| && GroupsByRoot(observations, root, |observations|, members)
    requires forall i, j | 0 <= i < |observations| && 0 <= j < |observations| ::
      root[i] == root[j] <==> Linked(Members(observations), observations[i], observations[j])
    requires Lists(members, members.Keys, listed)
    ensures IsComponentList(Members(observations), Sort(Precedes, listed))
  {
    hide IsClass, Sorted, LargestFirst, Linked, GroupsByRoot, Sort, StringLe, Precedes;
    var all, comps := Members(observations), Sort(Precedes, listed);
    OrdersArePreorders();
    SortSorts(Precedes, listed);
    DistinctPermutation(listed, comps);
    MultisetMembers(listed, comps);
    forall d | d in comps ensures IsClass(all, d) {
      var r :| r in members && d == Sort(ById, members[r]);
      SortedGroupIsClass(observations, root, members, r);
    }
    SortedIsLargestFirst(all, comps);
    forall o | o in all ensures exists d :: d in comps && o in d {
      var d := ClassOf(observations, root, members, o);
      assert d in listed;
    }
  }

  lemma ClassOf(observations: seq<Observation>, root: seq<nat>, members: map<nat, seq<Observation>>, o: Observation)
    returns (d: seq<Observation>)
    requires |root| == |observations| && GroupsByRoot(observations, root, |observations|, members) && o in observations
    ensures o in d && exists r :: r in members.Keys && d == Sort(ById, members[r])
  {
    var i :| 0 <= i < |observations| && observations[i] == o;
    d := Sort(ById, members[root[i]]);
    MultisetMembers(members[root[i]], d);
  }

  lemma GroupsDiffer(observations: seq<Observation>, root: seq<nat>, members: map<nat, seq<Observation>>, q: nat, r: nat)
    requires |root| == |observations| && Distinct(observations) && q in members && r in members && q != r
    requires GroupsByRoot(observations, root, |observations|, members)
    ensures Sort(ById, members[q]) != Sort(ById, members[r])
  {
    MultisetMembers(members[q], Sort(ById, members[q]));
    MultisetMembers(members[r], Sort(ById, members[r]));
    var o := members[q][0];
    assert o in members[q];
    assert Occurs(observations, root, |root|, q, o);
    assert o in members[r] ==> Occurs(observations, root, |root|, r, o);
    assert o !in members[r];
  }

  // ---- Giving components to roles ----------------------------------------------------

  function Sizes(comps: seq<seq<Observation>>): (sizes: seq<nat>)
    ensures |sizes| == |comps| && forall i | 0 <= i < |comps| :: sizes[i] == |comps[i]|
  {
    seq(|comps|, i requires 0 <= i < |comps| => |comps[i]|)
  }

  /** The observations of role `r`, component after component. */
  function RoleOf(comps: seq<seq<Observation>>, a: seq<nat>, r: nat): seq<Observation>
    requires |a| == |comps|
  {
    if comps == [] then []
    else
      var k := |comps| - 1;
      RoleOf(comps[..k], a[..k], r) + if a[k] == r then comps[k] else []
  }

  /** What the greedy rule gives to each of `m` roles. */
  function Distribute(comps: seq<seq<Observation>>, m: nat): (roles: seq<seq<Observation>>)
    requires m > 0
    ensures |roles| == m && forall r | 0 <= r < m :: roles[r] == RoleOf(comps, Greedy(Sizes(comps), m), r)
  {
    seq(m, (r: nat) => RoleOf(comps, Greedy(Sizes(comps), m), r))
  }

  lemma {:induction false} RoleLoad(comps: seq<seq<Observation>>, a: seq<nat>, r: nat)
    requires |a| == |comps|
    ensures |RoleOf(comps, a, r)| == Load(Sizes(comps), a, r)
    decreases |comps|
  {
    if comps != [] {
      var k := |comps| - 1;
      RoleLoad(comps[..k], a[..k], r);
      assert Sizes(comps)[..k] == Sizes(comps[..k]);
    }
  }

  lemma {:induction false} RoleMembers(comps: seq<seq<Observation>>, a: seq<nat>, r: nat, o: Observation)
    requires |a| == |comps|
    ensures o in RoleOf(comps, a, r) <==> exists i :: 0 <= i < |comps| && a[i] == r && o in comps[i]
    decreases |comps|
  {
    if comps != [] {
      var k := |comps| - 1;
      RoleMembers(comps[..k], a[..k], r, o);
      if i :| 0 <= i < k && a[..k][i] == r && o in comps[..k][i] {
        assert a[i] == r && o in comps[i];
      }
      if i :| 0 <= i < |comps| && a[i] == r && o in comps[i] {
        if i < k {
          assert a[..k][i] == r && o in comps[..k][i];
        }
      }
    }
  }

  /** No observation is in two roles, and no event or session group is split between two. */
  lemma NoLeakage(all: set<Observation>, comps: seq<seq<Observation>>, m: nat, r: nat, q: nat, o: Observation, p: Observation)
    requires DistinctIds(all) && IsComponentList(all, comps) && m > 0 && r < m && q < m
    requires o in Distribute(comps, m)[r] && p in Distribute(comps, m)[q] && Shares(o, p)
    ensures r == q
  {
    var a := Greedy(Sizes(comps), m);
    RoleMembers(comps, a, r, o);
    RoleMembers(comps, a, q, p);
    var i :| 0 <= i < |comps| && a[i] == r && o in comps[i];
    var j :| 0 <= j < |comps| && a[j] == q && p in comps[j];
    assert comps[i] in comps && comps[j] in comps;
    SharingLinks(all, o, p);
    assert p in comps[i];
    ClassesMeetOnce(all, comps[i], comps[j], p);
  }

  /** Every observation is in exactly one role, and nothing else is in any. */
  lemma EveryObservationOnce(all: set<Observation>, comps: seq<seq<Observation>>, m: nat, o: Observation)
    requires DistinctIds(all) && IsComponentList(all, comps) && m > 0
    ensures o in all <==> exists r :: 0 <= r < m && o in Distribute(comps, m)[r]
    ensures forall r, q | 0 <= r < m && 0 <= q < m && o in Distribute(comps, m)[r] && o in Distribute(comps, m)[q] :: r == q
  {
    var a := Greedy(Sizes(comps), m);
    if o in all {
      var c :| c in comps && o in c;
      var i :| 0 <= i < |comps| && comps[i] == c;
      RoleMembers(comps, a, a[i], o);
      assert o in Distribute(comps, m)[a[i]];
    }
    if r :| 0 <= r < m && o in Distribute(comps, m)[r] {
      RoleMembers(comps, a, r, o);
      var i :| 0 <= i < |comps| && a[i] == r && o in comps[i];
      assert comps[i] in comps;
    }
    forall r: nat, q: nat | r < m && q < m && o in Distribute(comps, m)[r] && o in Distribute(comps, m)[q] ensures r == q {
      NoLeakage(all, comps, m, r, q, o, o);
    }
  }

  /** With enough components no role is empty, and no role exceeds 4/3 - 1/(3m) times the
      heaviest role of any other assignment of whole components. */
  lemma RolesAreFilledAndBalanced(all: set<Observation>, comps: seq<seq<Observation>>, m: nat, other: seq<nat>, best: nat, r: nat)
    requires IsComponentList(all, comps) && 0 < m <= |comps| && r < m
    requires Assigns(other, |comps|, m) && forall q: nat | q < m :: |RoleOf(comps, other, q)| <= best
    ensures Distribute(comps, m)[r] != []
    ensures 3 * m * |Distribute(comps, m)[r]| <= (4 * m - 1) * best
  {
    var sizes := Sizes(comps);
    var a := Greedy(sizes, m);
    forall i | 0 <= i < |comps| ensures sizes[i] > 0 {
      assert comps[i] in comps;
    }
    forall i, j | 0 <= i <= j < |sizes| ensures sizes[i] >= sizes[j] {
      if i < j {
        assert |comps[i]| >= |comps[j]|;
      }
    }
    RoleLoad(comps, a, r);
    forall q: nat | q < m ensures Load(sizes, other, q) <= best {
      RoleLoad(comps, other, q);
    }
    GreedyIsBalanced(sizes, other, m, best, r);
    NoRoleEmpty(sizes, m, r);
    var i :| 0 <= i < |a| && a[i] == r;
    OneItem(sizes, a, i);
  }

  // ---- Building the split ------------------------------------------------------------

  datatype SplitError = InvalidCount | DuplicateId | TooFewComponents

  /** The components of a set of observations, whatever order they came in. */
  ghost function ComponentsOf(all: set<Observation>): seq<seq<Observation>> {
    if exists comps :: IsComponentList(all, comps) then
      var comps :| IsComponentList(all, comps);
      comps
    else []
  }

  lemma ComponentsAre(all: set<Observation>, comps: seq<seq<Observation>>)
    requires DistinctIds(all) && IsComponentList(all, comps)
    ensures ComponentsOf(all) == comps
  {
    var other := ComponentsOf(all);
    assert IsComponentList(all, other);
    ComponentListIsUnique(all, comps, other);
  }

  ghost predicate IdsDistinct(observations: seq<Observation>) {
    forall i, j | 0 <= i < j < |observations| :: observations[i].id != observations[j].id
  }

  /** What one more component changes for role `r`. */
  lemma RoleStep(comps: seq<seq<Observation>>, m: nat, k: nat, r: nat)
    requires m > 0 && k < |comps| && r < m
    ensures var sizes, sizes' := Sizes(comps[..k]), Sizes(comps[..k + 1]);
            var a, a' := Greedy(sizes, m), Greedy(sizes', m);
            var pick := LeastLoaded(Loads(sizes, a, m));
            && RoleOf(comps[..k + 1], a', r) == RoleOf(comps[..k], a, r) + (if pick == r then comps[k] else [])
            && Load(sizes', a', r) == Load(sizes, a, r) + if pick == r then |comps[k]| else 0
  {
    var sizes, sizes' := Sizes(comps[..k]), Sizes(comps[..k + 1]);
    assert sizes'[..k] == sizes && comps[..k + 1][..k] == comps[..k] && sizes'[k] == |comps[k]|;
    assert Greedy(sizes', m)[..k] == Greedy(sizes, m);
    hide LeastLoaded, Greedy, Sizes;
  }

  lemma DistributeStep(comps: seq<seq<Observation>>, m: nat, k: nat)
    requires m > 0 && k < |comps|
    ensures var loads := Loads(Sizes(comps[..k]), Greedy(Sizes(comps[..k]), m), m);
            var role := LeastLoaded(loads);
            var before := Distribute(comps[..k], m);
            && Distribute(comps[..k + 1], m) == before[role := before[role] + comps[k]]
            && Loads(Sizes(comps[..k + 1]), Greedy(Sizes(comps[..k + 1]), m), m) ==
               loads[role := loads[role] + |comps[k]|]
  {
    hide LeastLoaded, Greedy, Sizes, RoleOf, Load, Distribute, Loads;
    var loads := Loads(Sizes(comps[..k]), Greedy(Sizes(comps[..k]), m), m);
    var loads' := Loads(Sizes(comps[..k + 1]), Greedy(Sizes(comps[..k + 1]), m), m);
    var role := LeastLoaded(loads);
    var before, after := Distribute(comps[..k], m), Distribute(comps[..k + 1], m);
    forall r: nat | r < m
      ensures after[r] == before[role := before[role] + comps[k]][r]
      ensures loads'[r] == loads[role := loads[role] + |comps[k]|][r]
    {
      RoleStep(comps, m, k, r);
      assert before[r] + [] == before[r];
    }
  }

  lemma NothingAssigned(comps: seq<seq<Observation>>, m: nat)
    requires m > 0
    ensures Distribute(comps[..0], m) == seq(m, _ => [])
    ensures Loads(Sizes(comps[..0]), Greedy(Sizes(comps[..0]), m), m) == seq(m, _ => 0)
  {
  }

  method AssignRoles(comps: seq<seq<Observation>>, m: nat) returns (roles: seq<seq<Observation>>)
    requires m > 0
    ensures roles == Distribute(comps, m)
  {
    roles := seq(m, _ => []);
    var loads := seq(m, _ => 0);
    NothingAssigned(comps, m);
    hide Distribute, Loads, Greedy, Sizes, LeastLoaded;
    for k := 0 to |comps|
      invariant roles == Distribute(comps[..k], m)
      invariant loads == Loads(Sizes(comps[..k]), Greedy(Sizes(comps[..k]), m), m)
    {
      var role := LeastLoaded(loads);
      DistributeStep(comps, m, k);
      roles := roles[role := roles[role] + comps[k]];
      loads := loads[role := loads[role] + |comps[k]|];
    }
    assert comps[..|comps|] == comps;
  }

  /** The split of the observations over `m` roles: a function of their set alone. */
  method BuildSplit(raw: seq<Observation>, m: nat) returns (r: Result<seq<seq<Observation>>, SplitError>)
    requires m > 0
    ensures r == Failure(InvalidCount) <==> !(m <= |raw| <= 10_000)
    ensures r == Failure(DuplicateId) <==> m <= |raw| <= 10_000 && !IdsDistinct(raw)
    ensures r == Failure(TooFewComponents) <==>
            m <= |raw| <= 10_000 && IdsDistinct(raw) && |ComponentsOf(Members(raw))| < m
    ensures r.Success? ==> IsComponentList(Members(raw), ComponentsOf(Members(raw)))
    ensures r.Success? ==> r.value == Distribute(ComponentsOf(Members(raw)), m)
  {
    if !(m <= |raw| <= MAX_TOTAL_OBSERVATIONS) {
      return Failure(InvalidCount);
    }
    var observations := Sort(ById, raw);
    MultisetMembers(raw, observations);
    assert Members(observations) == Members(raw);
    var ids := set o | o in observations :: o.id;
    IdsCount(observations, ids);
    SameIds(raw, observations);
    if |ids| != |observations| {
      return Failure(DuplicateId);
    }
    DistinctIdsMeanDistinct(observations);
    var comps := AssignmentComponents(observations);
    ComponentsAre(Members(observations), comps);
    if |comps| < m {
      return Failure(TooFewComponents);
    }
    var roles := AssignRoles(comps, m);
    return Success(roles);
  }

  lemma {:induction false} IdsCount(observations: seq<Observation>, ids: set<string>)
    requires ids == set o | o in observations :: o.id
    ensures |ids| <= |observations|
    ensures |ids| == |observations| <==> IdsDistinct(observations)
    decreases |observations|
  {
    if observations != [] {
      var k := |observations| - 1;
      var last := observations[k].id;
      var rest := set o | o in observations[..k] :: o.id;
      IdsCount(observations[..k], rest);
      assert ids == rest + {last};
      LastIdDistinct(observations, rest);
    }
  }

  lemma LastIdDistinct(observations: seq<Observation>, rest: set<string>)
    requires observations != []
    requires var k := |observations| - 1; rest == set o | o in observations[..k] :: o.id
    ensures var k := |observations| - 1;
            IdsDistinct(observations) <==> IdsDistinct(observations[..k]) && observations[k].id !in rest
  {
    var k := |observations| - 1;
    assert forall i | 0 <= i < k :: observations[i] in observations[..k] && observations[..k][i] == observations[i];
    if observations[k].id in rest {
      var o :| o in observations[..k] && o.id == observations[k].id;
      var i :| 0 <= i < k && observations[..k][i] == o;
      assert observations[i].id == observations[k].id;
    }
  }

  lemma DistinctIdsMeanDistinct(observations: seq<Observation>)
    requires IdsDistinct(observations)
    ensures Distinct(observations) && DistinctIds(Members(observations))
  {
  }

  /** Sorting neither makes nor removes duplicate identifiers. */
  lemma SameIds(s: seq<Observation>, t: seq<Observation>)
    requires multiset(s) == multiset(t)
    ensures IdsDistinct(s) <==> IdsDistinct(t)
  {
    if IdsDistinct(s) {
      IdsDistinctPermutes(s, t);
    }
    if IdsDistinct(t) {
      IdsDistinctPermutes(t, s);
    }
  }

  lemma IdsDistinctPermutes(s: seq<Observation>, t: seq<Observation>)
    requires multiset(s) == multiset(t) && IdsDistinct(s)
    ensures IdsDistinct(t)
  {
    DistinctPermutation(s, t);
    MultisetMembers(s, t);
    forall i, j | 0 <= i < j < |t| ensures t[i].id != t[j].id {
      assert t[i] in s && t[j] in s && t[i] != t[j];
    }
  }
}
