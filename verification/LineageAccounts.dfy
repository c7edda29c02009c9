/** The counts reported about a matching, and why they add up. */
module LineageAccounts {
  import opened Wrappers
  import opened Sets
  import opened FlowMatching

  // ---- Matched flows and surplus fragments -------------------------------------------

  function Matched(table: seq<set<nat>>): nat {
    if table == [] then 0 else Matched(table[..|table| - 1]) + (if table[|table| - 1] != {} then 1 else 0)
  }

  /** Sum of max(0, |edges| - 1). */
  function Surplus(table: seq<set<nat>>): nat {
    if table == [] then 0
    else Surplus(table[..|table| - 1]) + (if |table[|table| - 1]| > 0 then |table[|table| - 1]| - 1 else 0)
  }

  ghost function PairsBelow(pairs: set<(nat, nat)>, k: nat): set<(nat, nat)> {
    set x | x in pairs && x.0 < k
  }

  lemma RowPairs(pairs: set<(nat, nat)>, k: nat, row: set<nat>)
    requires forall j :: j in row <==> (k, j) in pairs
    ensures |PairsBelow(pairs, k + 1)| == |PairsBelow(pairs, k)| + |row|
  {
    var slice := set j | j in row :: (k, j);
    assert PairsBelow(pairs, k + 1) == PairsBelow(pairs, k) + slice by {
      forall x | x in PairsBelow(pairs, k + 1) && x.0 == k ensures x in slice {
        assert x == (k, x.1);
      }
    }
    assert PairsBelow(pairs, k) !! slice;
    SameSize(row, k, slice);
  }

  lemma {:induction false} SameSize(row: set<nat>, k: nat, slice: set<(nat, nat)>)
    requires slice == set j | j in row :: (k, j)
    ensures |slice| == |row|
    decreases |row|
  {
    if row != {} {
      var j :| j in row;
      SameSize(row - {j}, k, slice - {(k, j)});
    }
  }

  lemma {:induction false} RowsCountPairs(table: seq<set<nat>>, pairs: set<(nat, nat)>)
    requires forall i, j | 0 <= i < |table| :: j in table[i] <==> (i, j) in pairs
    ensures Surplus(table) + Matched(table) == |PairsBelow(pairs, |table|)|
    decreases |table|
  {
    var k := |table| - 1;
    if table == [] {
      assert PairsBelow(pairs, 0) == {};
    } else {
      assert forall i, j | 0 <= i < k :: j in table[..k][i] <==> (i, j) in pairs;
      RowsCountPairs(table[..k], pairs);
      RowPairs(pairs, k, table[k]);
    }
  }

  function Swap(x: (nat, nat)): (nat, nat) {
    (x.1, x.0)
  }

  lemma {:induction false} ConverseSize(pairs: set<(nat, nat)>, converse: set<(nat, nat)>)
    requires forall x :: x in pairs <==> Swap(x) in converse
    ensures |converse| == |pairs|
    decreases |pairs|
  {
    assert forall x: (nat, nat) :: x == (x.0, x.1) && Swap(Swap(x)) == x;
    if pairs != {} {
      var y :| y in pairs;
      ConverseSize(pairs - {y}, converse - {Swap(y)});
    } else {
      assert forall x :: x in converse ==> Swap(x) in pairs;
      assert converse == {};
    }
  }

  /** On both sides the surplus fragments are the edges beyond one per matched flow. */
  lemma SurplusIsEdgesBeyondMatches(publisher: seq<Flow>, packet: seq<Flow>, e: Edges)
    requires Tabulates(e, Pairs(publisher, packet), |publisher|, |packet|)
    ensures Surplus(e.publisher) == e.count - Matched(e.publisher)
    ensures Surplus(e.packet) == e.count - Matched(e.packet)
  {
    var pairs := Pairs(publisher, packet);
    RowsCountPairs(e.publisher, pairs);
    assert PairsBelow(pairs, |publisher|) == pairs;
    var converse := set x | x in pairs :: Swap(x);
    forall j, i | 0 <= j < |packet| ensures i in e.packet[j] <==> (j, i) in converse {
      if i in e.packet[j] {
        assert Swap((i, j)) == (j, i);
      }
      if (j, i) in converse {
        var x :| x in pairs && Swap(x) == (j, i);
        assert x == (i, j);
      }
    }
    RowsCountPairs(e.packet, converse);
    assert PairsBelow(converse, |packet|) == converse;
    ConverseSize(pairs, converse);
  }

  // ---- One-to-one pairs --------------------------------------------------------------

  /** Publisher flow `i` has one edge, to `j`, and `j` has one edge. */
  predicate OneToOne(e: Edges, i: nat, j: nat)
    requires i < |e.publisher|
  {
    e.publisher[i] == {j} && j < |e.packet| && |e.packet[j]| == 1
  }

  /** The one-to-one pairs are a partial injection, and they match in both directions. */
  lemma OneToOneIsInjective(e: Edges, pairs: set<(nat, nat)>, n: nat, m: nat, i: nat, j: nat)
    requires Tabulates(e, pairs, n, m) && i < n && OneToOne(e, i, j)
    ensures (i, j) in pairs && e.packet[j] == {i}
    ensures forall k: nat, l: nat | k < n && OneToOne(e, k, l) :: i == k <==> j == l
  {
    assert i in e.packet[j];
    OnlyMember(e.packet[j], i);
    forall k: nat, l: nat | k < n && OneToOne(e, k, l) ensures i == k <==> j == l {
      if i == k {
        assert j in e.publisher[i];
      }
      if j == l {
        assert l in e.publisher[k];
        assert k in e.packet[l];
      }
    }
  }

  lemma OnlyMember<T>(s: set<T>, x: T)
    requires x in s && |s| == 1
    ensures s == {x}
  {
    assert |s - {x}| == 0;
  }

  // ---- Rows by label -----------------------------------------------------------------

  datatype Row = Row(flows: nat, matched: nat, unmatched: nat, split: nat, oneToOne: nat)

  function IsOneToOne(edges: set<nat>, packet: seq<set<nat>>): bool
    requires forall j | j in edges :: j < |packet|
  {
    |edges| == 1 && exists j | j in edges :: |packet[j]| == 1
  }

  /** What one flow with these edges adds to its label's row. */
  function Added(row: Row, edges: set<nat>, packet: seq<set<nat>>): Row
    requires forall j | j in edges :: j < |packet|
  {
    Row(row.flows + 1,
        row.matched + (if edges != {} then 1 else 0),
        row.unmatched + (if edges == {} then 1 else 0),
        row.split + (if |edges| > 1 then 1 else 0),
        row.oneToOne + (if IsOneToOne(edges, packet) then 1 else 0))
  }

  function Plus(a: Row, b: Row): Row {
    Row(a.flows + b.flows, a.matched + b.matched, a.unmatched + b.unmatched, a.split + b.split, a.oneToOne + b.oneToOne)
  }

  const NO_FLOWS := Row(0, 0, 0, 0, 0)

  ghost predicate Fits(publisher: seq<Flow>, table: seq<set<nat>>, packet: seq<set<nat>>) {
    |publisher| == |table| && forall i, j | 0 <= i < |table| && j in table[i] :: j < |packet|
  }

  /** The row of one label, or of all flows, over the first `k` flows. */
  ghost function RowOf(publisher: seq<Flow>, table: seq<set<nat>>, packet: seq<set<nat>>, k: nat,
                       only: Option<Option<string>>): Row
    requires Fits(publisher, table, packet) && k <= |publisher|
  {
    if k == 0 then NO_FLOWS
    else
      var row := RowOf(publisher, table, packet, k - 1, only);
      if only == None || only == Some(publisher[k - 1].category) then Added(row, table[k - 1], packet) else row
  }

  ghost function SumOf(publisher: seq<Flow>, table: seq<set<nat>>, packet: seq<set<nat>>, k: nat,
                       names: set<Option<string>>): Row
    requires Fits(publisher, table, packet) && k <= |publisher|
    decreases |names|
  {
    if names == {} then NO_FLOWS
    else
      var name := Pick(names);
      Plus(RowOf(publisher, table, packet, k, Some(name)), SumOf(publisher, table, packet, k, names - {name}))
  }

  lemma {:induction false} SumTakesOut(publisher: seq<Flow>, table: seq<set<nat>>, packet: seq<set<nat>>, k: nat,
                                       names: set<Option<string>>, name: Option<string>)
    requires Fits(publisher, table, packet) && k <= |publisher| && name in names
    ensures SumOf(publisher, table, packet, k, names) ==
            Plus(RowOf(publisher, table, packet, k, Some(name)), SumOf(publisher, table, packet, k, names - {name}))
    decreases |names|
  {
    hide RowOf;
    var first := Pick(names);
    if first != name {
      SumTakesOut(publisher, table, packet, k, names - {first}, name);
      SumTakesOut(publisher, table, packet, k, names - {name}, first);
      assert names - {first} - {name} == names - {name} - {first};
    }
  }

  /** A flow counts in no row but its label's. */
  lemma {:induction false} SumIgnores(publisher: seq<Flow>, table: seq<set<nat>>, packet: seq<set<nat>>, k: nat,
                                      names: set<Option<string>>)
    requires Fits(publisher, table, packet) && k < |publisher| && publisher[k].category !in names
    ensures SumOf(publisher, table, packet, k + 1, names) == SumOf(publisher, table, packet, k, names)
    decreases |names|
  {
    if names != {} {
      var name := Pick(names);
      hide SumOf;
      SumTakesOut(publisher, table, packet, k, names, name);
      SumTakesOut(publisher, table, packet, k + 1, names, name);
      SumIgnores(publisher, table, packet, k, names - {name});
    }
  }

  /** The rows of all labels add up to the row of all flows. */
  lemma {:induction false} LabelRowsAddUp(publisher: seq<Flow>, table: seq<set<nat>>, packet: seq<set<nat>>, k: nat,
                                          names: set<Option<string>>)
    requires Fits(publisher, table, packet) && k <= |publisher|
    requires forall i | 0 <= i < k :: publisher[i].category in names
    ensures SumOf(publisher, table, packet, k, names) == RowOf(publisher, table, packet, k, None)
    decreases k
  {
    if k == 0 {
      NothingAddsUp(publisher, table, packet, names);
    } else {
      hide SumOf;
      var name := publisher[k - 1].category;
      LabelRowsAddUp(publisher, table, packet, k - 1, names);
      SumTakesOut(publisher, table, packet, k - 1, names, name);
      SumTakesOut(publisher, table, packet, k, names, name);
      SumIgnores(publisher, table, packet, k - 1, names - {name});
    }
  }

  lemma {:induction false} NothingAddsUp(publisher: seq<Flow>, table: seq<set<nat>>, packet: seq<set<nat>>,
                                         names: set<Option<string>>)
    requires Fits(publisher, table, packet)
    ensures SumOf(publisher, table, packet, 0, names) == NO_FLOWS
    decreases |names|
  {
    if names != {} {
      var name := Pick(names);
      assert RowOf(publisher, table, packet, 0, Some(name)) == NO_FLOWS;
      hide RowOf, Fits;
      NothingAddsUp(publisher, table, packet, names - {name});
    }
  }

  /** The flows that count in a row: those of one label, or all. */
  ghost predicate InRow(publisher: seq<Flow>, i: nat, only: Option<Option<string>>)
    requires i < |publisher|
  {
    only.None? || only.value == publisher[i].category
  }

  datatype Kind = Any | Matching | Unmatching | Splitting | Mutual

  /** Whether a flow with these edges is of the kind. */
  ghost predicate OfKind(kind: Kind, edges: set<nat>, packet: seq<set<nat>>)
    requires forall j | j in edges :: j < |packet|
  {
    match kind
    case Any => true
    case Matching => edges != {}
    case Unmatching => edges == {}
    case Splitting => |edges| >= 2
    case Mutual => exists j :: edges == {j} && |packet[j]| == 1
  }

  ghost function Those(publisher: seq<Flow>, table: seq<set<nat>>, packet: seq<set<nat>>, k: nat, only: Option<Option<string>>, kind: Kind): set<nat>
    requires Fits(publisher, table, packet) && k <= |publisher|
  {
    set i: nat | i < k && InRow(publisher, i, only) && OfKind(kind, table[i], packet)
  }

  lemma OneMore(publisher: seq<Flow>, table: seq<set<nat>>, packet: seq<set<nat>>, k: nat, only: Option<Option<string>>, kind: Kind)
    requires Fits(publisher, table, packet) && k < |publisher|
    ensures |Those(publisher, table, packet, k + 1, only, kind)| ==
            |Those(publisher, table, packet, k, only, kind)| + if InRow(publisher, k, only) && OfKind(kind, table[k], packet) then 1 else 0
  {
    hide OfKind;
    var s, t := Those(publisher, table, packet, k, only, kind), Those(publisher, table, packet, k + 1, only, kind);
    assert t == s + if InRow(publisher, k, only) && OfKind(kind, table[k], packet) then {k} else {};
  }

  /** A row counts the flows of its label, and among them those with some, no, several, or one mutual edge. */
  lemma {:induction false} RowCounts(publisher: seq<Flow>, table: seq<set<nat>>, packet: seq<set<nat>>, k: nat, only: Option<Option<string>>)
    requires Fits(publisher, table, packet) && k <= |publisher|
    ensures var row := RowOf(publisher, table, packet, k, only);
            && row.flows == |Those(publisher, table, packet, k, only, Any)|
            && row.matched == |Those(publisher, table, packet, k, only, Matching)|
            && row.unmatched == |Those(publisher, table, packet, k, only, Unmatching)|
            && row.split == |Those(publisher, table, packet, k, only, Splitting)|
            && row.oneToOne == |Those(publisher, table, packet, k, only, Mutual)|
    decreases k
  {
    if k > 0 {
      var n: nat := k - 1;
      RowCounts(publisher, table, packet, n, only);
      hide Those;
      OneMore(publisher, table, packet, n, only, Any);
      OneMore(publisher, table, packet, n, only, Matching);
      OneMore(publisher, table, packet, n, only, Unmatching);
      OneMore(publisher, table, packet, n, only, Splitting);
      OneMore(publisher, table, packet, n, only, Mutual);
      MutualEdge(table[n], packet);
    }
  }

  lemma MutualEdge(edges: set<nat>, packet: seq<set<nat>>)
    requires forall j | j in edges :: j < |packet|
    ensures IsOneToOne(edges, packet) <==> exists j :: edges == {j} && |packet[j]| == 1
  {
    if |edges| == 1 {
      var j :| j in edges;
      OnlyMember(edges, j);
    }
  }

  /** Over all flows the row repeats the overall counts. */
  lemma {:induction false} OverallRow(publisher: seq<Flow>, table: seq<set<nat>>, packet: seq<set<nat>>, k: nat)
    requires Fits(publisher, table, packet) && k <= |publisher|
    ensures var row := RowOf(publisher, table, packet, k, None);
            row.flows == k && row.matched == Matched(table[..k]) && row.matched + row.unmatched == k
    decreases k
  {
    if k > 0 {
      OverallRow(publisher, table, packet, k - 1);
      assert table[..k][..k - 1] == table[..k - 1];
    }
  }

  method LabelRows(publisher: seq<Flow>, table: seq<set<nat>>, packet: seq<set<nat>>)
    returns (counts: map<Option<string>, Row>)
    requires Fits(publisher, table, packet)
    ensures counts.Keys == set i | 0 <= i < |publisher| :: publisher[i].category
    ensures forall name | name in counts ::
      counts[name] == RowOf(publisher, table, packet, |publisher|, Some(name))
    ensures SumOf(publisher, table, packet, |publisher|, counts.Keys) ==
            RowOf(publisher, table, packet, |publisher|, None)
  {
    counts := map[];
    for k := 0 to |publisher|
      invariant counts.Keys == set i | 0 <= i < k :: publisher[i].category
      invariant forall name | name in counts :: counts[name] == RowOf(publisher, table, packet, k, Some(name))
      invariant forall name | name !in counts :: RowOf(publisher, table, packet, k, Some(name)) == NO_FLOWS
    {
      var name := publisher[k].category;
      var row := if name in counts then counts[name] else NO_FLOWS;
      counts := counts[name := Added(row, table[k], packet)];
    }
    LabelRowsAddUp(publisher, table, packet, |publisher|, counts.Keys);
  }

  // ---- Counter deltas over the one-to-one pairs ---------------------------------------

  datatype Delta = Delta(compared: nat, missing: nat, publisherTotal: nat, packetTotal: nat, signed: int, absolute: nat)

  function Distance(a: nat, b: nat): nat {
    if a < b then b - a else a - b
  }

  /** One metric over the pairs; a pair is skipped if either counter is missing. */
  method Metric(pairs: seq<(Option<nat>, Option<nat>)>) returns (d: Delta)
    ensures d.compared == |BothCounted(pairs)| && d.compared + d.missing == |pairs|
    ensures d.publisherTotal == PublisherTotal(BothCounted(pairs)) && d.packetTotal == PacketTotal(BothCounted(pairs))
    ensures d.signed == d.packetTotal - d.publisherTotal
    ensures 0 - d.absolute <= d.signed <= d.absolute
    ensures d.absolute == 0 <==> forall i | 0 <= i < |pairs| :: pairs[i].0.Some? && pairs[i].1.Some? ==> pairs[i].0 == pairs[i].1
    ensures d.absolute == AbsoluteDelta(pairs)
    ensures d.signed == d.absolute <==>
      forall i | 0 <= i < |pairs| :: pairs[i].0.Some? && pairs[i].1.Some? ==> pairs[i].0.value <= pairs[i].1.value
  {
    var publisherTotal: nat, packetTotal: nat, absolute: nat, compared: nat := 0, 0, 0, 0;
    for k := 0 to |pairs|
      invariant Counted(pairs[..k], compared, publisherTotal, packetTotal, absolute)
    {
      assert pairs[..k + 1][..k] == pairs[..k];
      NextPair(pairs[..k + 1], compared, publisherTotal, packetTotal, absolute);
      if pairs[k].0.Some? && pairs[k].1.Some? {
        var publisherValue, packetValue := pairs[k].0.value, pairs[k].1.value;
        publisherTotal := publisherTotal + publisherValue;
        packetTotal := packetTotal + packetValue;
        absolute := absolute + Distance(publisherValue, packetValue);
        compared := compared + 1;
      }
    }
    assert pairs[..|pairs|] == pairs;
    DeltasAddUp(pairs);
    d := Delta(compared, |pairs| - compared, publisherTotal, packetTotal, packetTotal - publisherTotal, absolute);
  }

  ghost predicate Counted(pairs: seq<(Option<nat>, Option<nat>)>, compared: nat, publisherTotal: nat, packetTotal: nat, absolute: nat) {
    && compared == |BothCounted(pairs)| <= |pairs|
    && publisherTotal == PublisherTotal(BothCounted(pairs)) && packetTotal == PacketTotal(BothCounted(pairs))
    && absolute == AbsoluteDelta(pairs)
  }

  lemma NextPair(pairs: seq<(Option<nat>, Option<nat>)>, compared: nat, publisherTotal: nat, packetTotal: nat, absolute: nat)
    requires pairs != [] && Counted(pairs[..|pairs| - 1], compared, publisherTotal, packetTotal, absolute)
    ensures var (a, b) := pairs[|pairs| - 1];
            if a.Some? && b.Some? then
              Counted(pairs, compared + 1, publisherTotal + a.value, packetTotal + b.value, absolute + Distance(a.value, b.value))
            else Counted(pairs, compared, publisherTotal, packetTotal, absolute)
  {
    var (a, b) := pairs[|pairs| - 1];
    var before := BothCounted(pairs[..|pairs| - 1]);
    if a.Some? && b.Some? {
      assert (before + [(a.value, b.value)])[..|before|] == before;
    } else {
      assert before + [] == before;
    }
  }

  /** The difference of the totals is within the sum of the distances, and meets it if no packet
      count is the smaller one. */
  lemma {:induction false} DeltasAddUp(pairs: seq<(Option<nat>, Option<nat>)>)
    ensures var signed := PacketTotal(BothCounted(pairs)) - PublisherTotal(BothCounted(pairs));
            && 0 - AbsoluteDelta(pairs) <= signed <= AbsoluteDelta(pairs)
            && (signed == AbsoluteDelta(pairs) <==>
                  forall i | 0 <= i < |pairs| :: pairs[i].0.Some? && pairs[i].1.Some? ==> pairs[i].0.value <= pairs[i].1.value)
    ensures AbsoluteDelta(pairs) == 0 <==>
            forall i | 0 <= i < |pairs| :: pairs[i].0.Some? && pairs[i].1.Some? ==> pairs[i].0 == pairs[i].1
    ensures |BothCounted(pairs)| <= |pairs|
  {
    if pairs != [] {
      var k := |pairs| - 1;
      var less := pairs[..k];
      DeltasAddUp(less);
      assert forall i | 0 <= i < k :: less[i] == pairs[i];
      NextPair(pairs, |BothCounted(less)|, PublisherTotal(BothCounted(less)), PacketTotal(BothCounted(less)), AbsoluteDelta(less));
      hide BothCounted, PublisherTotal, PacketTotal, AbsoluteDelta;
      var (a, b) := pairs[k];
      if a.Some? && b.Some? {
        assert pairs[k].0.Some? && pairs[k].1.Some?;
      }
    }
  }

  /** The values of the pairs in which both counters are given. */
  function BothCounted(pairs: seq<(Option<nat>, Option<nat>)>): seq<(nat, nat)> {
    if pairs == [] then []
    else
      var (a, b) := pairs[|pairs| - 1];
      BothCounted(pairs[..|pairs| - 1]) + (if a.Some? && b.Some? then [(a.value, b.value)] else [])
  }

  function PublisherTotal(values: seq<(nat, nat)>): nat {
    if values == [] then 0 else PublisherTotal(values[..|values| - 1]) + values[|values| - 1].0
  }

  function PacketTotal(values: seq<(nat, nat)>): nat {
    if values == [] then 0 else PacketTotal(values[..|values| - 1]) + values[|values| - 1].1
  }

  function AbsoluteDelta(pairs: seq<(Option<nat>, Option<nat>)>): nat {
    if pairs == [] then 0
    else
      var (a, b) := pairs[|pairs| - 1];
      AbsoluteDelta(pairs[..|pairs| - 1]) + (if a.Some? && b.Some? then Distance(a.value, b.value) else 0)
  }
}
