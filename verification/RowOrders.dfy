/** Rows, spans and the orders in which rows are listed and drawn. */
module RowOrders {
  import opened Sorting
  import opened Text

  /** The atomic group of a row: never split between roles. */
  datatype Group = Group(collection: string, source: string, device: string, location: string)

  datatype Row = Row(index: nat, group: Group)

  datatype Span = Span(start: nat, stop: nat, group: Group)

  // ---- Orders ------------------------------------------------------------------------

  function Fields(g: Group): seq<string> {
    [g.collection, g.source, g.device, g.location]
  }

  /** Tuples of strings, by the first field in which they differ. */
  predicate FieldsLe(a: seq<string>, b: seq<string>) {
    a == [] || (b != [] && if a[0] == b[0] then FieldsLe(a[1..], b[1..]) else StringLe(a[0], b[0]))
  }

  predicate GroupLe(a: Group, b: Group) {
    FieldsLe(Fields(a), Fields(b))
  }

  predicate RowLe(r: Row, s: Row) {
    if r.group == s.group then r.index <= s.index else GroupLe(r.group, s.group)
  }

  lemma {:induction false} FieldsOrder(a: seq<string>, b: seq<string>, c: seq<string>)
    ensures FieldsLe(a, b) || FieldsLe(b, a)
    ensures FieldsLe(a, b) && FieldsLe(b, a) ==> a == b
    ensures FieldsLe(a, b) && FieldsLe(b, c) ==> FieldsLe(a, c)
    decreases |a|
  {
    if a != [] && b != [] {
      FieldsOrder(a[1..], b[1..], if c == [] then [] else c[1..]);
      LeTotal(a[0], b[0]);
      if StringLe(a[0], b[0]) && StringLe(b[0], a[0]) {
        LeAntisymmetric(a[0], b[0]);
      }
      if c != [] && StringLe(a[0], b[0]) && StringLe(b[0], c[0]) {
        LeTransitive(a[0], b[0], c[0]);
        if a[0] == c[0] {
          LeAntisymmetric(a[0], b[0]);
        }
      }
    }
  }

  lemma GroupLeIsTotalOrder()
    ensures TotalOrder(GroupLe)
  {
    forall a, b, c
      ensures (GroupLe(a, b) || GroupLe(b, a)) && (GroupLe(a, b) && GroupLe(b, a) ==> a == b)
      ensures GroupLe(a, b) && GroupLe(b, c) ==> GroupLe(a, c)
    {
      FieldsOrder(Fields(a), Fields(b), Fields(c));
      assert a == b <==> Fields(a) == Fields(b);
    }
  }

  /** The digest that ranks a row of a group, read as a number. */
  type Ranking = (Group, nat) -> int

  /** Rows of group `g` are drawn by digest, then by index. */
  function ByRank(rank: Ranking, g: Group): (nat, nat) -> bool {
    (i: nat, j: nat) => rank(g, i) < rank(g, j) || (rank(g, i) == rank(g, j) && i <= j)
  }

  lemma ByRankIsTotalOrder(rank: Ranking, g: Group)
    ensures TotalOrder(ByRank(rank, g))
  {
  }

  /** Locations are dealt out by digest, then by name. */
  function ByKey(key: string -> int): (string, string) -> bool {
    (a, b) => key(a) < key(b) || (key(a) == key(b) && StringLe(a, b))
  }

  lemma ByKeyIsTotalOrder(key: string -> int)
    ensures TotalOrder(ByKey(key))
  {
    StringLeIsTotalOrder();
  }

  // ---- Sets in order -----------------------------------------------------------------

  function Dedup<T(!new, ==)>(s: seq<T>): (d: seq<T>)
    ensures forall x :: x in d <==> x in s
    ensures forall i, j :: 0 <= i < j < |d| ==> d[i] != d[j]
  {
    if s == [] then []
    else
      var d := Dedup(s[..|s| - 1]);
      if s[|s| - 1] in d then d else d + [s[|s| - 1]]
  }

  /** `sorted(set(s))`. */
  function SortedSet<T(!new, ==)>(le: (T, T) -> bool, s: seq<T>): seq<T> {
    Sort(le, Dedup(s))
  }

  lemma SortedSetMembers<T(!new)>(le: (T, T) -> bool, s: seq<T>)
    ensures forall x :: x in SortedSet(le, s) <==> x in s
    ensures Distinct(SortedSet(le, s))
  {
    MultisetMembers(Dedup(s), SortedSet(le, s));
    DistinctPermutation(Dedup(s), SortedSet(le, s));
  }

  lemma SortedSetDependsOnMembers<T(!new)>(le: (T, T) -> bool, s: seq<T>, t: seq<T>)
    requires TotalOrder(le) && forall x :: x in s <==> x in t
    ensures SortedSet(le, s) == SortedSet(le, t)
  {
    DistinctSameMembers(Dedup(s), Dedup(t));
    SortSorts(le, Dedup(s));
    SortSorts(le, Dedup(t));
    SortedIsUnique(le, SortedSet(le, s), SortedSet(le, t));
  }

  // ---- Streaming selection of the smallest -------------------------------------------

  function Prefix<T>(s: seq<T>, k: nat): seq<T> {
    if |s| <= k then s else s[..k]
  }

  /** The `k` smallest of the items seen so far, in order, kept up to date item by item. */
  function Smallest<T>(le: (T, T) -> bool, k: nat, items: seq<T>): seq<T> {
    if items == [] then []
    else Prefix(Insert(le, items[|items| - 1], Smallest(le, k, items[..|items| - 1])), k)
  }

  lemma PrefixCons<T>(x: T, s: seq<T>, k: nat)
    requires k > 0
    ensures Prefix([x] + s, k) == [x] + Prefix(s, k - 1)
    ensures Prefix(Prefix(s, k), k - 1) == Prefix(s, k - 1)
  {
  }

  lemma {:induction false} InsertIntoPrefix<T(!new)>(le: (T, T) -> bool, x: T, s: seq<T>, k: nat)
    ensures Prefix(Insert(le, x, Prefix(s, k)), k) == Prefix(Insert(le, x, s), k)
    decreases |s|
  {
    if k > 0 && s != [] {
      assert s == [s[0]] + s[1..];
      PrefixCons(s[0], s[1..], k);
      var p := Prefix(s, k);
      assert p[0] == s[0] && p[1..] == Prefix(s[1..], k - 1);
      hide Prefix;
      if le(x, s[0]) {
        PrefixCons(x, s, k);
        PrefixCons(x, p, k);
      } else {
        InsertIntoPrefix(le, x, s[1..], k - 1);
        PrefixCons(s[0], Insert(le, x, p[1..]), k);
        PrefixCons(s[0], Insert(le, x, s[1..]), k);
      }
    }
  }

  /** The streaming selection is the prefix of the sorted whole. */
  lemma {:induction false} SmallestIsSortedPrefix<T(!new)>(le: (T, T) -> bool, k: nat, items: seq<T>)
    requires TotalOrder(le)
    ensures Smallest(le, k, items) == Prefix(Sort(le, items), k)
    decreases |items|
  {
    if items != [] {
      var n := |items| - 1;
      SmallestIsSortedPrefix(le, k, items[..n]);
      InsertIntoPrefix(le, items[n], Sort(le, items[..n]), k);
      SortLast(le, items);
    }
  }

  lemma SortIsTheSortedOne<T(!new)>(le: (T, T) -> bool, s: seq<T>, t: seq<T>)
    requires TotalOrder(le) && Sorted(le, s) && multiset(s) == multiset(t)
    ensures s == Sort(le, t)
  {
    hide TotalOrder, Preorder, Sorted;
    assert Preorder(le) by {
      TotalIsPreorder(le);
    }
    SortSorts(le, t);
    SortedIsUnique(le, s, Sort(le, t));
  }

  lemma TotalIsPreorder<T(!new)>(le: (T, T) -> bool)
    requires TotalOrder(le)
    ensures Preorder(le)
  {
  }

  lemma MultisetLast<T(!new)>(items: seq<T>)
    requires items != []
    ensures multiset(items) == multiset([items[|items| - 1]]) + multiset(items[..|items| - 1])
  {
    assert items == items[..|items| - 1] + [items[|items| - 1]];
  }

  lemma SortLast<T(!new)>(le: (T, T) -> bool, items: seq<T>)
    requires TotalOrder(le) && items != []
    ensures Sort(le, items) == Insert(le, items[|items| - 1], Sort(le, items[..|items| - 1]))
  {
    hide Sort, Insert, Sorted, TotalOrder, Preorder;
    var n := |items| - 1;
    var x, rest := items[n], items[..n];
    MultisetLast(items);
    TotalIsPreorder(le);
    SortSorts(le, rest);
    InsertSorts(le, x, Sort(le, rest));
    SortIsTheSortedOne(le, Insert(le, x, Sort(le, rest)), items);
  }
}
