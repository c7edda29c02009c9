/** Partitioning by location and bounded sampling, row by row and on compact spans. */
module RowSampling {
  import opened Wrappers
  import opened Sorting
  import opened Text
  import opened RowOrders

  datatype Role = Train | Validation | Test

  /** What one role gets. */
  datatype Selection = Selection(locations: seq<string>, groups: seq<Group>, sourceRows: nat, sampled: seq<Row>)

  // ---- Compact spans and the rows they stand for --------------------------------------

  function SpanRows(span: Span): (rows: seq<Row>)
    ensures forall k | 0 <= k < |rows| :: rows[k].group == span.group
  {
    if span.start <= span.stop then seq(span.stop - span.start, (k: nat) => Row(span.start + k, span.group)) else []
  }

  function Expand(spans: seq<Span>): seq<Row> {
    if spans == [] then [] else Expand(spans[..|spans| - 1]) + SpanRows(spans[|spans| - 1])
  }

  /** Non-empty spans that tile the rows from 0 on. */
  ghost predicate Tile(spans: seq<Span>) {
    && (forall k | 0 <= k < |spans| :: spans[k].start < spans[k].stop)
    && (spans != [] ==> spans[0].start == 0)
    && forall k | 0 < k < |spans| :: spans[k].start == spans[k - 1].stop
  }

  lemma {:induction false} TiledRows(spans: seq<Span>)
    requires Tile(spans)
    ensures |Expand(spans)| == if spans == [] then 0 else spans[|spans| - 1].stop
    ensures forall k | 0 <= k < |Expand(spans)| :: Expand(spans)[k].index == k
    decreases |spans|
  {
    if spans != [] {
      var rest := spans[..|spans| - 1];
      assert forall k | 0 <= k < |rest| :: rest[k] == spans[k];
      TiledRows(rest);
    }
  }

  lemma {:induction false} ExpandMember(spans: seq<Span>, r: Row)
    ensures r in Expand(spans) <==> exists s :: s in spans && s.group == r.group && s.start <= r.index < s.stop
    decreases |spans|
  {
    if spans != [] {
      var n := |spans| - 1;
      ExpandMember(spans[..n], r);
      var last := spans[n];
      assert r in SpanRows(last) <==> last.group == r.group && last.start <= r.index < last.stop by {
        if last.group == r.group && last.start <= r.index < last.stop {
          assert SpanRows(last)[r.index - last.start] == r;
        }
      }
      assert forall s :: s in spans <==> s in spans[..n] || s == last;
    }
  }

  // ---- Which role a location belongs to ----------------------------------------------

  function Locations(rows: seq<Row>): (l: seq<string>)
    ensures |l| == |rows| && forall k | 0 <= k < |l| :: l[k] == rows[k].group.location
  {
    seq(|rows|, k requires 0 <= k < |rows| => rows[k].group.location)
  }

  function Groups(rows: seq<Row>): (l: seq<Group>)
    ensures |l| == |rows| && forall k | 0 <= k < |l| :: l[k] == rows[k].group
  {
    seq(|rows|, k requires 0 <= k < |rows| => rows[k].group)
  }

  function SpanGroups(spans: seq<Span>): (l: seq<Group>)
    ensures |l| == |spans| && forall k | 0 <= k < |l| :: l[k] == spans[k].group
  {
    seq(|spans|, k requires 0 <= k < |spans| => spans[k].group)
  }

  function SpanLocations(spans: seq<Span>): (l: seq<string>)
    ensures |l| == |spans| && forall k | 0 <= k < |l| :: l[k] == spans[k].group.location
  {
    seq(|spans|, k requires 0 <= k < |spans| => spans[k].group.location)
  }

  function Position(s: seq<string>, x: string): nat {
    if s == [] || s[0] == x then 0 else 1 + Position(s[1..], x)
  }

  /** The first 80 percent of the dealt locations train, the next 10 percent validate. */
  function RoleOfLocation(dealt: seq<string>, location: string): Role {
    var train, validation := |dealt| * 80 / 100, |dealt| * 10 / 100;
    var index := Position(dealt, location);
    if index < train then Train else if index < train + validation then Validation else Test
  }

  function RowsOfRole(rows: seq<Row>, dealt: seq<string>, role: Role): seq<Row> {
    if rows == [] then []
    else
      var r := rows[|rows| - 1];
      RowsOfRole(rows[..|rows| - 1], dealt, role) + if RoleOfLocation(dealt, r.group.location) == role then [r] else []
  }

  function SpansOfRole(spans: seq<Span>, dealt: seq<string>, role: Role): seq<Span> {
    if spans == [] then []
    else
      var s := spans[|spans| - 1];
      SpansOfRole(spans[..|spans| - 1], dealt, role) + if RoleOfLocation(dealt, s.group.location) == role then [s] else []
  }

  // ---- The row-by-row form -----------------------------------------------------------

  function PartitionOfRole(rows: seq<Row>, key: string -> int, role: Role): seq<Row> {
    Sort(RowLe, RowsOfRole(rows, SortedSet(ByKey(key), Locations(rows)), role))
  }

  function InGroup(rows: seq<Row>, g: Group): seq<Row> {
    if rows == [] then []
    else InGroup(rows[..|rows| - 1], g) + if rows[|rows| - 1].group == g then [rows[|rows| - 1]] else []
  }

  function RowRank(rank: Ranking): (Row, Row) -> bool {
    (r: Row, s: Row) => rank(r.group, r.index) < rank(s.group, s.index) ||
                        (rank(r.group, r.index) == rank(s.group, s.index) && r.index <= s.index)
  }

  /** The rows of the groups, each group's `maximum` best by rank. */
  function Drawn(rows: seq<Row>, groups: seq<Group>, rank: Ranking, maximum: nat): seq<Row> {
    if groups == [] then []
    else
      var g := groups[|groups| - 1];
      Drawn(rows, groups[..|groups| - 1], rank, maximum) + Prefix(Sort(RowRank(rank), InGroup(rows, g)), maximum)
  }

  function SampledRows(rows: seq<Row>, rank: Ranking, maximum: nat): seq<Row> {
    Sort(RowLe, Drawn(rows, SortedSet(GroupLe, Groups(rows)), rank, maximum))
  }

  function SlowSelection(rows: seq<Row>, rank: Ranking, maximum: nat): Selection {
    Selection(SortedSet(StringLe, Locations(rows)), SortedSet(GroupLe, Groups(rows)), |rows|,
              SampledRows(rows, rank, maximum))
  }

  // ---- The compact form --------------------------------------------------------------

  function Interval(start: nat, stop: nat): seq<nat> {
    if start <= stop then seq(stop - start, (k: nat) => start + k) else []
  }

  /** The row indices of a group, range after range. */
  function Indices(spans: seq<Span>, g: Group): seq<nat> {
    if spans == [] then []
    else Indices(spans[..|spans| - 1], g) + if spans[|spans| - 1].group == g then Interval(spans[|spans| - 1].start, spans[|spans| - 1].stop) else []
  }

  function RowsFrom(g: Group, indices: seq<nat>): (rows: seq<Row>)
    ensures |rows| == |indices| && forall k | 0 <= k < |rows| :: rows[k] == Row(indices[k], g)
  {
    seq(|indices|, k requires 0 <= k < |indices| => Row(indices[k], g))
  }

  function DrawnFromSpans(spans: seq<Span>, groups: seq<Group>, rank: Ranking, maximum: nat): seq<Row> {
    if groups == [] then []
    else
      var g := groups[|groups| - 1];
      DrawnFromSpans(spans, groups[..|groups| - 1], rank, maximum) +
      RowsFrom(g, Smallest(ByRank(rank, g), maximum, Indices(spans, g)))
  }

  function TotalRows(spans: seq<Span>): nat {
    if spans == [] then 0
    else
      var s := spans[|spans| - 1];
      TotalRows(spans[..|spans| - 1]) + if s.start <= s.stop then s.stop - s.start else 0
  }

  function FastSelection(spans: seq<Span>, rank: Ranking, maximum: nat): Selection {
    Selection(SortedSet(StringLe, SpanLocations(spans)), SortedSet(GroupLe, SpanGroups(spans)), TotalRows(spans),
              Sort(RowLe, DrawnFromSpans(spans, SortedSet(GroupLe, SpanGroups(spans)), rank, maximum)))
  }

  // ---- The two forms agree -----------------------------------------------------------

  lemma {:induction false} RowsOfRoleAppend(rows: seq<Row>, more: seq<Row>, dealt: seq<string>, role: Role)
    ensures RowsOfRole(rows + more, dealt, role) == RowsOfRole(rows, dealt, role) + RowsOfRole(more, dealt, role)
    decreases |more|
  {
    if more == [] {
      assert rows + more == rows;
    } else {
      var n := |more| - 1;
      assert (rows + more)[..|rows| + n] == rows + more[..n];
      RowsOfRoleAppend(rows, more[..n], dealt, role);
    }
  }

  lemma {:induction false} RowsOfOneLocation(rows: seq<Row>, dealt: seq<string>, role: Role, location: string)
    requires forall k | 0 <= k < |rows| :: rows[k].group.location == location
    ensures RowsOfRole(rows, dealt, role) == if RoleOfLocation(dealt, location) == role then rows else []
    decreases |rows|
  {
    if rows != [] {
      RowsOfOneLocation(rows[..|rows| - 1], dealt, role, location);
    }
  }

  /** Selecting rows of the expansion is expanding the selected spans. */
  lemma {:induction false} RoleCommutesWithExpand(spans: seq<Span>, dealt: seq<string>, role: Role)
    ensures RowsOfRole(Expand(spans), dealt, role) == Expand(SpansOfRole(spans, dealt, role))
    decreases |spans|
  {
    if spans != [] {
      var n := |spans| - 1;
      var last := spans[n];
      RoleCommutesWithExpand(spans[..n], dealt, role);
      RowsOfRoleAppend(Expand(spans[..n]), SpanRows(last), dealt, role);
      RowsOfOneLocation(SpanRows(last), dealt, role, last.group.location);
      var rest := SpansOfRole(spans[..n], dealt, role);
      if RoleOfLocation(dealt, last.group.location) == role {
        assert (rest + [last])[..|rest|] == rest;
      } else {
        assert rest + [] == rest;
      }
    }
  }

  /** The indices of the rows of one group, in order. */
  function GroupIndices(rows: seq<Row>, g: Group): seq<nat> {
    if rows == [] then []
    else GroupIndices(rows[..|rows| - 1], g) + if rows[|rows| - 1].group == g then [rows[|rows| - 1].index] else []
  }

  lemma {:induction false} InGroupByIndex(rows: seq<Row>, g: Group)
    ensures InGroup(rows, g) == RowsFrom(g, GroupIndices(rows, g))
    decreases |rows|
  {
    if rows != [] {
      InGroupByIndex(rows[..|rows| - 1], g);
    }
  }

  lemma {:induction false} GroupIndexMember(rows: seq<Row>, g: Group, i: nat)
    ensures i in GroupIndices(rows, g) <==> Row(i, g) in rows
    decreases |rows|
  {
    if rows != [] {
      var n := |rows| - 1;
      GroupIndexMember(rows[..n], g, i);
      assert Row(i, g) in rows <==> Row(i, g) in rows[..n] || rows[n] == Row(i, g);
    }
  }

  lemma {:induction false} GroupIndicesDistinct(rows: seq<Row>, g: Group)
    requires Distinct(rows)
    ensures Distinct(GroupIndices(rows, g))
    decreases |rows|
  {
    if rows != [] {
      var n := |rows| - 1;
      var rest := GroupIndices(rows[..n], g);
      GroupIndicesDistinct(rows[..n], g);
      if rows[n].group == g {
        GroupIndexMember(rows[..n], g, rows[n].index);
        assert rows[n] == Row(rows[n].index, g) && rows[n] !in rows[..n];
        assert forall k | 0 <= k < |rest| :: rest[k] in rest;
      }
    }
  }

  lemma {:induction false} GroupIndicesAppend(rows: seq<Row>, more: seq<Row>, g: Group)
    ensures GroupIndices(rows + more, g) == GroupIndices(rows, g) + GroupIndices(more, g)
    decreases |more|
  {
    if more == [] {
      assert rows + more == rows;
    } else {
      var n := |more| - 1;
      assert (rows + more)[..|rows| + n] == rows + more[..n];
      GroupIndicesAppend(rows, more[..n], g);
    }
  }

  lemma {:induction false} SpanGroupIndices(rows: seq<Row>, g: Group, h: Group)
    requires forall k | 0 <= k < |rows| :: rows[k].group == h
    ensures |GroupIndices(rows, g)| == if g == h then |rows| else 0
    ensures g == h ==> forall k | 0 <= k < |rows| :: GroupIndices(rows, g)[k] == rows[k].index
    decreases |rows|
  {
    if rows != [] {
      SpanGroupIndices(rows[..|rows| - 1], g, h);
    }
  }

  lemma {:induction false} IndicesOfExpansion(spans: seq<Span>, g: Group)
    ensures GroupIndices(Expand(spans), g) == Indices(spans, g)
    decreases |spans|
  {
    if spans != [] {
      var n := |spans| - 1;
      IndicesOfExpansion(spans[..n], g);
      GroupIndicesAppend(Expand(spans[..n]), SpanRows(spans[n]), g);
      SpanGroupIndices(SpanRows(spans[n]), g, spans[n].group);
    }
  }

  lemma RowsFromCons(g: Group, i: nat, s: seq<nat>)
    ensures [Row(i, g)] + RowsFrom(g, s) == RowsFrom(g, [i] + s)
    ensures s != [] ==> RowsFrom(g, s)[0] == Row(s[0], g) && RowsFrom(g, s)[1..] == RowsFrom(g, s[1..])
  {
  }

  lemma SameRank(rank: Ranking, g: Group, i: nat, j: nat)
    ensures RowRank(rank)(Row(i, g), Row(j, g)) == ByRank(rank, g)(i, j)
  {
  }

  lemma {:induction false} InsertRow(rank: Ranking, g: Group, i: nat, s: seq<nat>)
    ensures Insert(RowRank(rank), Row(i, g), RowsFrom(g, s)) == RowsFrom(g, Insert(ByRank(rank, g), i, s))
    decreases |s|
  {
    if s == [] {
      assert RowsFrom(g, s) == [];
    } else {
      hide RowRank, ByRank, RowsFrom;
      InsertRow(rank, g, i, s[1..]);
      RowsFromCons(g, i, s);
      RowsFromCons(g, s[0], Insert(ByRank(rank, g), i, s[1..]));
      SameRank(rank, g, i, s[0]);
    }
  }

  /** Sorting rows of one group is sorting their indices. */
  lemma {:induction false} SortRows(rank: Ranking, g: Group, s: seq<nat>)
    ensures Sort(RowRank(rank), RowsFrom(g, s)) == RowsFrom(g, Sort(ByRank(rank, g), s))
    decreases |s|
  {
    if s != [] {
      SortRows(rank, g, s[1..]);
      assert RowsFrom(g, s)[1..] == RowsFrom(g, s[1..]);
      InsertRow(rank, g, s[0], Sort(ByRank(rank, g), s[1..]));
    }
  }

  /** One group's draw is the same from rows and from spans. */
  lemma SameDraw(rows: seq<Row>, spans: seq<Span>, g: Group, rank: Ranking, maximum: nat)
    requires Distinct(rows) && Distinct(Expand(spans)) && forall r :: r in rows <==> r in Expand(spans)
    ensures Prefix(Sort(RowRank(rank), InGroup(rows, g)), maximum) ==
            RowsFrom(g, Smallest(ByRank(rank, g), maximum, Indices(spans, g)))
  {
    hide Sort, Smallest, GroupIndices, Indices, InGroup, Expand;
    var le, here, there := ByRank(rank, g), GroupIndices(rows, g), Indices(spans, g);
    InGroupByIndex(rows, g);
    SortRows(rank, g, here);
    IndicesOfExpansion(spans, g);
    GroupIndicesDistinct(rows, g);
    GroupIndicesDistinct(Expand(spans), g);
    forall i ensures i in here <==> i in there {
      if i in here || i in there {
        GroupIndexMember(rows, g, i);
        GroupIndexMember(Expand(spans), g, i);
      }
    }
    DistinctSameMembers(here, there);
    ByRankIsTotalOrder(rank, g);
    SortSorts(le, here);
    SortSorts(le, there);
    SortedIsUnique(le, Sort(le, here), Sort(le, there));
    SmallestIsSortedPrefix(le, maximum, there);
    hide ByRank, Distinct;
    assert Prefix(RowsFrom(g, Sort(le, there)), maximum) == RowsFrom(g, Prefix(Sort(le, there), maximum));
  }

  lemma {:induction false} SameDraws(rows: seq<Row>, spans: seq<Span>, groups: seq<Group>, rank: Ranking, maximum: nat)
    requires Distinct(rows) && Distinct(Expand(spans)) && forall r :: r in rows <==> r in Expand(spans)
    ensures Drawn(rows, groups, rank, maximum) == DrawnFromSpans(spans, groups, rank, maximum)
    decreases |groups|
  {
    if groups != [] {
      SameDraws(rows, spans, groups[..|groups| - 1], rank, maximum);
      SameDraw(rows, spans, groups[|groups| - 1], rank, maximum);
    }
  }

  lemma {:induction false} RowsOfRoleMember(rows: seq<Row>, dealt: seq<string>, role: Role, r: Row)
    ensures r in RowsOfRole(rows, dealt, role) <==> r in rows && RoleOfLocation(dealt, r.group.location) == role
    decreases |rows|
  {
    if rows != [] {
      var n := |rows| - 1;
      RowsOfRoleMember(rows[..n], dealt, role, r);
      assert r in rows <==> r in rows[..n] || r == rows[n];
    }
  }

  lemma {:induction false} RowsOfRoleDistinct(rows: seq<Row>, dealt: seq<string>, role: Role)
    requires Distinct(rows)
    ensures Distinct(RowsOfRole(rows, dealt, role))
    decreases |rows|
  {
    if rows != [] {
      var n := |rows| - 1;
      var rest := RowsOfRole(rows[..n], dealt, role);
      RowsOfRoleDistinct(rows[..n], dealt, role);
      RowsOfRoleMember(rows[..n], dealt, role, rows[n]);
      assert rows[n] !in rows[..n];
      assert forall k | 0 <= k < |rest| :: rest[k] in rest;
    }
  }

  lemma {:induction false} SpansOfRoleMember(spans: seq<Span>, dealt: seq<string>, role: Role, s: Span)
    ensures s in SpansOfRole(spans, dealt, role) <==> s in spans && RoleOfLocation(dealt, s.group.location) == role
    decreases |spans|
  {
    if spans != [] {
      var n := |spans| - 1;
      SpansOfRoleMember(spans[..n], dealt, role, s);
      assert s in spans <==> s in spans[..n] || s == spans[n];
    }
  }

  /** Rows and non-empty spans show the same groups and locations. */
  lemma SameGroups(rows: seq<Row>, spans: seq<Span>)
    requires forall r :: r in rows <==> r in Expand(spans)
    requires forall s | s in spans :: s.start < s.stop
    ensures forall g :: g in Groups(rows) <==> g in SpanGroups(spans)
    ensures forall l :: l in Locations(rows) <==> l in SpanLocations(spans)
  {
    hide Expand;
    forall k | 0 <= k < |rows| ensures Groups(rows)[k] in SpanGroups(spans) && Locations(rows)[k] in SpanLocations(spans) {
      assert rows[k] in rows;
      var j := SpanOfRow(spans, rows[k]);
      assert SpanGroups(spans)[j] == rows[k].group && SpanLocations(spans)[j] == rows[k].group.location;
    }
    forall j | 0 <= j < |spans| ensures SpanGroups(spans)[j] in Groups(rows) && SpanLocations(spans)[j] in Locations(rows) {
      var r := FirstRow(spans, j);
      var k :| 0 <= k < |rows| && rows[k] == r;
      assert Groups(rows)[k] == r.group && Locations(rows)[k] == r.group.location;
    }
  }

  lemma SpanOfRow(spans: seq<Span>, r: Row) returns (j: nat)
    requires r in Expand(spans)
    ensures j < |spans| && spans[j].group == r.group
  {
    ExpandMember(spans, r);
    var s :| s in spans && s.group == r.group;
    j :| 0 <= j < |spans| && spans[j] == s;
  }

  lemma FirstRow(spans: seq<Span>, j: nat) returns (r: Row)
    requires j < |spans| && spans[j].start < spans[j].stop
    ensures r in Expand(spans) && r.group == spans[j].group
  {
    r := Row(spans[j].start, spans[j].group);
    assert spans[j] in spans;
    ExpandMember(spans, r);
  }

  lemma {:induction false} RowCount(spans: seq<Span>)
    ensures |Expand(spans)| == TotalRows(spans)
    decreases |spans|
  {
    if spans != [] {
      RowCount(spans[..|spans| - 1]);
    }
  }

  /** On the same rows, the compact selection is the row-by-row selection. */
  lemma SameSelection(rows: seq<Row>, spans: seq<Span>, rank: Ranking, maximum: nat)
    requires Distinct(rows) && Distinct(Expand(spans)) && multiset(rows) == multiset(Expand(spans))
    requires forall s | s in spans :: s.start < s.stop
    ensures FastSelection(spans, rank, maximum) == SlowSelection(rows, rank, maximum)
  {
    hide Sort, Expand, Drawn, DrawnFromSpans, TotalRows, SortedSet;
    MultisetMembers(rows, Expand(spans));
    SameGroups(rows, spans);
    StringLeIsTotalOrder();
    GroupLeIsTotalOrder();
    SortedSetDependsOnMembers(StringLe, Locations(rows), SpanLocations(spans));
    SortedSetDependsOnMembers(GroupLe, Groups(rows), SpanGroups(spans));
    SameDraws(rows, spans, SortedSet(GroupLe, Groups(rows)), rank, maximum);
    RowCount(spans);
    assert |rows| == |multiset(rows)| == |multiset(Expand(spans))|;
  }

  lemma TiledIsDistinct(spans: seq<Span>)
    requires Tile(spans)
    ensures Distinct(Expand(spans))
  {
    TiledRows(spans);
  }

  lemma SameDeal(spans: seq<Span>, key: string -> int)
    requires Tile(spans)
    ensures SortedSet(ByKey(key), Locations(Expand(spans))) == SortedSet(ByKey(key), SpanLocations(spans))
  {
    forall s | s in spans ensures s.start < s.stop {
      var k :| 0 <= k < |spans| && spans[k] == s;
    }
    SameGroups(Expand(spans), spans);
    ByKeyIsTotalOrder(key);
    SortedSetDependsOnMembers(ByKey(key), Locations(Expand(spans)), SpanLocations(spans));
  }

  /** Partitioning and sampling compact spans gives every role what partitioning and sampling
      the expanded rows gives it. */
  lemma FastRefinesSlow(spans: seq<Span>, key: string -> int, rank: Ranking, maximum: nat, role: Role)
    requires Tile(spans)
    ensures var dealt := SortedSet(ByKey(key), SpanLocations(spans));
            FastSelection(SpansOfRole(spans, dealt, role), rank, maximum) ==
            SlowSelection(PartitionOfRole(Expand(spans), key, role), rank, maximum)
  {
    var dealt := SortedSet(ByKey(key), SpanLocations(spans));
    var chosen := SpansOfRole(spans, dealt, role);
    hide FastSelection, SlowSelection, SortedSet, Sort;
    SameDeal(spans, key);
    RoleCommutesWithExpand(spans, dealt, role);
    TiledIsDistinct(spans);
    RowsOfRoleDistinct(Expand(spans), dealt, role);
    var rows := PartitionOfRole(Expand(spans), key, role);
    DistinctPermutation(Expand(chosen), rows);
    forall s | s in chosen ensures s.start < s.stop {
      SpansOfRoleMember(spans, dealt, role, s);
      var k :| 0 <= k < |spans| && spans[k] == s;
    }
    SameSelection(rows, chosen, rank, maximum);
  }
}
