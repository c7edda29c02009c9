/** The two procedures that partition and sample, and the proof that the compact one returns
    what the row-by-row one returns on the expanded rows. */
module RowSelection {
  import opened Wrappers
  import opened Sorting
  import opened Text
  import opened RowOrders
  import opened RowSampling

  datatype SelectionError = InvalidRows | EmptyLocationPartition | EmptyRowPartition | SplitOverlap

  datatype Roles = Roles(train: Selection, validation: Selection, test: Selection)

  // ---- Validation --------------------------------------------------------------------

  /** One collection, a bounded number of locations and devices, sources and devices in
      bijection. */
  ghost predicate ValidIdentities(groups: set<Group>) {
    && |set g | g in groups :: g.collection| == 1
    && 10 <= |set g | g in groups :: g.location| <= 256
    && 2 <= |set g | g in groups :: g.device| <= 32
    && forall g, h | g in groups && h in groups :: g.source == h.source <==> g.device == h.device
  }

  ghost predicate OpaqueGroup(g: Group) {
    IsDigest(g.collection) && IsDigest(g.source) && IsDigest(g.device) && IsDigest(g.location)
  }

  /** No identifier is used in two domains. */
  ghost predicate DomainsDisjoint(groups: set<Group>) {
    forall g, h | g in groups && h in groups ::
      && g.collection != h.source && g.collection != h.device && g.collection != h.location
      && g.source != h.device && g.source != h.location && g.device != h.location
  }

  ghost predicate NeighboursDiffer(spans: seq<Span>) {
    forall k | 0 < k < |spans| :: spans[k - 1].group != spans[k].group
  }

  ghost predicate ValidAdapter(spans: seq<Span>) {
    && 1 <= |spans| <= 100_000 && Tile(spans) && NeighboursDiffer(spans)
    && spans[|spans| - 1].stop <= 1_500_000
    && (forall k | 0 <= k < |spans| :: OpaqueGroup(spans[k].group))
    && DomainsDisjoint(set g | g in SpanGroups(spans))
    && ValidIdentities(set g | g in SpanGroups(spans))
  }

  predicate IsIdentifierCharacter(c: char) {
    'A' <= c <= 'Z' || 'a' <= c <= 'z' || '0' <= c <= '9' || c == '_' || c == '.' || c == ':' || c == '-'
  }

  predicate IsIdentifier(s: string) {
    && 1 <= |s| <= 128 && s[0] != '_' && s[0] != '.' && s[0] != ':' && s[0] != '-'
    && forall i | 0 <= i < |s| :: IsIdentifierCharacter(s[i])
  }

  ghost predicate NamedGroup(g: Group) {
    IsIdentifier(g.collection) && IsIdentifier(g.source) && IsIdentifier(g.device) && IsIdentifier(g.location)
  }

  ghost predicate ValidRows(rows: seq<Row>) {
    && 1 <= |rows| <= 2_000_000
    && (forall k | 0 <= k < |rows| :: rows[k].index < 1_500_000 && NamedGroup(rows[k].group))
    && (forall j, k | 0 <= j < k < |rows| :: rows[j].index != rows[k].index)
    && ValidIdentities(set g | g in Groups(rows))
  }

  lemma DigestIsIdentifier(s: string)
    requires IsDigest(s)
    ensures IsIdentifier(s)
  {
    forall i | 0 <= i < |s| ensures IsIdentifierCharacter(s[i]) {
    }
  }

  lemma OpaqueIsNamed(g: Group)
    requires OpaqueGroup(g)
    ensures NamedGroup(g)
  {
    DigestIsIdentifier(g.collection);
    DigestIsIdentifier(g.source);
    DigestIsIdentifier(g.device);
    DigestIsIdentifier(g.location);
  }

  lemma ExpandedAdapterIsValid(spans: seq<Span>)
    requires ValidAdapter(spans)
    ensures ValidRows(Expand(spans))
  {
    hide DomainsDisjoint, NeighboursDiffer, OpaqueGroup, NamedGroup, ValidIdentities;
    var rows := Expand(spans);
    TiledRows(spans);
    forall s | s in spans ensures s.start < s.stop {
      var k :| 0 <= k < |spans| && spans[k] == s;
    }
    SameGroups(rows, spans);
    assert (set g | g in Groups(rows)) == set g | g in SpanGroups(spans);
    assert spans[|spans| - 1].start < spans[|spans| - 1].stop;
    forall k | 0 <= k < |rows| ensures NamedGroup(rows[k].group) {
      assert Groups(rows)[k] == rows[k].group;
      assert rows[k].group in Groups(rows) && rows[k].group in SpanGroups(spans);
      var j :| 0 <= j < |spans| && SpanGroups(spans)[j] == rows[k].group;
      OpaqueIsNamed(spans[j].group);
    }
  }

  // ---- The row-by-row procedure ------------------------------------------------------

  ghost predicate Overlap(p: seq<Row>, q: seq<Row>) {
    exists r, s | r in p && s in q ::
      r.group.location == s.group.location || r.group == s.group || r.index == s.index
  }

  ghost predicate AnyOverlap(p: seq<Row>, q: seq<Row>, r: seq<Row>) {
    Overlap(p, q) || Overlap(p, r) || Overlap(q, r)
  }

  predicate TooFewLocations(n: nat) {
    n * 80 / 100 == 0 || n * 10 / 100 == 0
  }

  /** Partition the rows, check the roles for overlap, sample, check again. */
  ghost function SelectRowByRow(rows: seq<Row>, key: string -> int, rank: Ranking, maximum: nat): Result<Roles, SelectionError> {
    if !ValidRows(rows) then Failure(InvalidRows)
    else if TooFewLocations(|SortedSet(ByKey(key), Locations(rows))|) then Failure(EmptyLocationPartition)
    else
      var p, q, r := PartitionOfRole(rows, key, Train), PartitionOfRole(rows, key, Validation), PartitionOfRole(rows, key, Test);
      if p == [] || q == [] || r == [] then Failure(EmptyRowPartition)
      else if AnyOverlap(p, q, r) then Failure(SplitOverlap)
      else
        var a, b, c := SlowSelection(p, rank, maximum), SlowSelection(q, rank, maximum), SlowSelection(r, rank, maximum);
        if AnyOverlap(a.sampled, b.sampled, c.sampled) then Failure(SplitOverlap) else Success(Roles(a, b, c))
  }

  lemma PartitionMember(rows: seq<Row>, key: string -> int, role: Role, r: Row)
    requires r in PartitionOfRole(rows, key, role)
    ensures r in rows && RoleOfLocation(SortedSet(ByKey(key), Locations(rows)), r.group.location) == role
  {
    var dealt := SortedSet(ByKey(key), Locations(rows));
    MultisetMembers(RowsOfRole(rows, dealt, role), PartitionOfRole(rows, key, role));
    RowsOfRoleMember(rows, dealt, role, r);
  }

  lemma RowsAreApart(rows: seq<Row>, key: string -> int, a: Role, b: Role, r: Row, s: Row)
    requires ValidRows(rows) && a != b
    requires r in PartitionOfRole(rows, key, a) && s in PartitionOfRole(rows, key, b)
    ensures r.group.location != s.group.location && r.index != s.index
  {
    hide ValidIdentities, PartitionOfRole, RoleOfLocation;
    PartitionMember(rows, key, a, r);
    PartitionMember(rows, key, b, s);
    var j :| 0 <= j < |rows| && rows[j] == r;
    var k :| 0 <= k < |rows| && rows[k] == s;
    assert j < k || k < j;
  }

  /** Rows of two roles share neither location, nor group, nor index. */
  lemma RolesDoNotOverlap(rows: seq<Row>, key: string -> int, a: Role, b: Role)
    requires ValidRows(rows) && a != b
    ensures !Overlap(PartitionOfRole(rows, key, a), PartitionOfRole(rows, key, b))
  {
    hide ValidRows, PartitionOfRole;
    forall r, s | r in PartitionOfRole(rows, key, a) && s in PartitionOfRole(rows, key, b)
      ensures r.group.location != s.group.location && r.group != s.group && r.index != s.index
    {
      RowsAreApart(rows, key, a, b, r, s);
    }
  }

  lemma {:induction false} DrawnMember(rows: seq<Row>, groups: seq<Group>, rank: Ranking, maximum: nat, r: Row)
    requires r in Drawn(rows, groups, rank, maximum)
    ensures r in rows
    decreases |groups|
  {
    var n := |groups| - 1;
    var ranked := Sort(RowRank(rank), InGroup(rows, groups[n]));
    if r in Prefix(ranked, maximum) {
      assert r in ranked;
      MultisetMembers(InGroup(rows, groups[n]), ranked);
      InGroupMember(rows, groups[n], r);
    } else {
      DrawnMember(rows, groups[..n], rank, maximum, r);
    }
  }

  lemma {:induction false} InGroupMember(rows: seq<Row>, g: Group, r: Row)
    ensures r in InGroup(rows, g) <==> r in rows && r.group == g
    decreases |rows|
  {
    if rows != [] {
      var n := |rows| - 1;
      InGroupMember(rows[..n], g, r);
      assert r in rows <==> r in rows[..n] || r == rows[n];
    }
  }

  lemma SampledMember(rows: seq<Row>, rank: Ranking, maximum: nat, r: Row)
    requires r in SampledRows(rows, rank, maximum)
    ensures r in rows
  {
    var groups := SortedSet(GroupLe, Groups(rows));
    MultisetMembers(Drawn(rows, groups, rank, maximum), SampledRows(rows, rank, maximum));
    DrawnMember(rows, groups, rank, maximum, r);
  }

  lemma SamplesDoNotOverlap(p: seq<Row>, q: seq<Row>, rank: Ranking, maximum: nat)
    requires !Overlap(p, q)
    ensures !Overlap(SampledRows(p, rank, maximum), SampledRows(q, rank, maximum))
  {
    hide SampledRows;
    forall r | r in SampledRows(p, rank, maximum) ensures r in p {
      SampledMember(p, rank, maximum, r);
    }
    forall s | s in SampledRows(q, rank, maximum) ensures s in q {
      SampledMember(q, rank, maximum, s);
    }
  }

  /** The overlap checks never fail. */
  lemma NoSplitOverlap(rows: seq<Row>, key: string -> int, rank: Ranking, maximum: nat)
    requires ValidRows(rows)
    ensures SelectRowByRow(rows, key, rank, maximum) != Failure(SplitOverlap)
  {
    hide Overlap, PartitionOfRole, SampledRows;
    var p, q, r := PartitionOfRole(rows, key, Train), PartitionOfRole(rows, key, Validation), PartitionOfRole(rows, key, Test);
    RolesDoNotOverlap(rows, key, Train, Validation);
    RolesDoNotOverlap(rows, key, Train, Test);
    RolesDoNotOverlap(rows, key, Validation, Test);
    SamplesDoNotOverlap(p, q, rank, maximum);
    SamplesDoNotOverlap(p, r, rank, maximum);
    SamplesDoNotOverlap(q, r, rank, maximum);
  }

  // ---- The loops ---------------------------------------------------------------------

  /** The members of a set in order. */
  method SortedGroups(keys: set<Group>, ghost listed: seq<Group>) returns (s: seq<Group>)
    requires forall g :: g in listed <==> g in keys
    ensures s == SortedSet(GroupLe, listed)
  {
    var found: seq<Group> := [];
    var rest := keys;
    while rest != {}
      invariant rest <= keys
      invariant forall g :: g in found <==> g in keys && g !in rest
    {
      var g :| g in rest;
      assert forall h :: h in found + [g] <==> h in found || h == g;
      found := found + [g];
      rest := rest - {g};
    }
    s := SortedSet(GroupLe, found);
    GroupLeIsTotalOrder();
    SortedSetDependsOnMembers(GroupLe, found, listed);
  }

  ghost predicate GroupedRows(rows: seq<Row>, groups: map<Group, seq<Row>>) {
    && (forall g :: g in groups <==> g in Groups(rows))
    && forall g :: InGroup(rows, g) == if g in groups then groups[g] else []
  }

  lemma GroupOneRow(rows: seq<Row>, groups: map<Group, seq<Row>>, k: nat)
    requires k < |rows| && GroupedRows(rows[..k], groups)
    ensures var g := rows[k].group;
            GroupedRows(rows[..k + 1], groups[g := (if g in groups then groups[g] else []) + [rows[k]]])
  {
    assert rows[..k + 1][..k] == rows[..k];
    assert Groups(rows[..k + 1]) == Groups(rows[..k]) + [rows[k].group];
  }

  method GroupRows(rows: seq<Row>) returns (groups: map<Group, seq<Row>>)
    ensures GroupedRows(rows, groups)
  {
    groups := map[];
    for k := 0 to |rows|
      invariant GroupedRows(rows[..k], groups)
    {
      GroupOneRow(rows, groups, k);
      hide GroupedRows;
      var g := rows[k].group;
      groups := groups[g := (if g in groups then groups[g] else []) + [rows[k]]];
    }
    assert rows[..|rows|] == rows;
  }

  lemma DrawNext(rows: seq<Row>, order: seq<Group>, i: nat, rank: Ranking, maximum: nat)
    requires i < |order|
    ensures Drawn(rows, order[..i + 1], rank, maximum) ==
            Drawn(rows, order[..i], rank, maximum) + Prefix(Sort(RowRank(rank), InGroup(rows, order[i])), maximum)
  {
    assert order[..i + 1][..i] == order[..i] && order[..i + 1][i] == order[i];
  }

  lemma DrawNextFromSpans(spans: seq<Span>, order: seq<Group>, i: nat, rank: Ranking, maximum: nat)
    requires i < |order|
    ensures DrawnFromSpans(spans, order[..i + 1], rank, maximum) ==
            DrawnFromSpans(spans, order[..i], rank, maximum) +
            RowsFrom(order[i], Smallest(ByRank(rank, order[i]), maximum, Indices(spans, order[i])))
  {
    assert order[..i + 1][..i] == order[..i] && order[..i + 1][i] == order[i];
  }

  lemma NothingDrawn(rows: seq<Row>, order: seq<Group>, rank: Ranking, maximum: nat)
    ensures Drawn(rows, order[..0], rank, maximum) == []
  {
  }

  /** Samples one partition of rows. */
  method SampleRole(rows: seq<Row>, rank: Ranking, maximum: nat) returns (sampled: seq<Row>)
    ensures sampled == SampledRows(rows, rank, maximum)
  {
    hide SortedSet, Sort, Prefix, InGroup, Drawn, Groups, RowLe, GroupLe, RowRank;
    var groups := GroupRows(rows);
    var order := SortedGroups(groups.Keys, Groups(rows));
    SortedSetMembers(GroupLe, Groups(rows));
    var selected: seq<Row> := [];
    NothingDrawn(rows, order, rank, maximum);
    for i := 0 to |order|
      invariant selected == Drawn(rows, order[..i], rank, maximum)
    {
      assert order[i] in order;
      var ranked := Sort(RowRank(rank), groups[order[i]]);
      DrawNext(rows, order, i, rank, maximum);
      selected := selected + Prefix(ranked, maximum);
    }
    assert order[..|order|] == order;
    sampled := Sort(RowLe, selected);
  }

  function RangeIndices(ranges: seq<(nat, nat)>): seq<nat> {
    if ranges == [] then []
    else
      var (start, stop) := ranges[|ranges| - 1];
      RangeIndices(ranges[..|ranges| - 1]) + Interval(start, stop)
  }

  ghost predicate RangesOf(spans: seq<Span>, ranges: map<Group, seq<(nat, nat)>>) {
    && (forall g :: g in ranges <==> g in SpanGroups(spans))
    && forall g | g in ranges :: RangeIndices(ranges[g]) == Indices(spans, g)
  }

  /** Streams the indices of one group, holding at most `maximum` of them. */
  method SmallestIndices(indices: seq<nat>, rank: Ranking, g: Group, maximum: nat) returns (smallest: seq<nat>)
    ensures smallest == Smallest(ByRank(rank, g), maximum, indices)
  {
    smallest := [];
    for k := 0 to |indices|
      invariant smallest == Smallest(ByRank(rank, g), maximum, indices[..k])
    {
      assert indices[..k + 1][..k] == indices[..k];
      smallest := Prefix(Insert(ByRank(rank, g), indices[k], smallest), maximum);
    }
    assert indices[..|indices|] == indices;
  }

  /** Draws the rows of every group from its ranges. */
  method SelectSpanRows(ranges: map<Group, seq<(nat, nat)>>, rank: Ranking, maximum: nat, ghost spans: seq<Span>)
    returns (sampled: seq<Row>)
    requires RangesOf(spans, ranges)
    ensures sampled == Sort(RowLe, DrawnFromSpans(spans, SortedSet(GroupLe, SpanGroups(spans)), rank, maximum))
  {
    var order := SortedGroups(ranges.Keys, SpanGroups(spans));
    SortedSetMembers(GroupLe, SpanGroups(spans));
    var selected: seq<Row> := [];
    assert DrawnFromSpans(spans, order[..0], rank, maximum) == [];
    hide SortedSet, Sort, Smallest, Indices, RangeIndices, DrawnFromSpans, RowsFrom, ByRank, SpanGroups;
    for i := 0 to |order|
      invariant selected == DrawnFromSpans(spans, order[..i], rank, maximum)
    {
      var g := order[i];
      assert g in order;
      var smallest := SmallestIndices(RangeIndices(ranges[g]), rank, g, maximum);
      DrawNextFromSpans(spans, order, i, rank, maximum);
      selected := selected + RowsFrom(g, smallest);
    }
    assert order[..|order|] == order;
    sampled := Sort(RowLe, selected);
  }

  ghost predicate Covered(spans: seq<Span>, ranges: map<Group, seq<(nat, nat)>>, g: Group) {
    Indices(spans, g) == if g in ranges then RangeIndices(ranges[g]) else []
  }

  ghost predicate Ranged(spans: seq<Span>, ranges: map<Group, seq<(nat, nat)>>) {
    (forall g :: g in ranges <==> g in SpanGroups(spans)) && forall g :: Covered(spans, ranges, g)
  }

  lemma RangeOneGroup(spans: seq<Span>, ranges: map<Group, seq<(nat, nat)>>, k: nat, g: Group)
    requires k < |spans| && Covered(spans[..k], ranges, g)
    ensures var s := spans[k];
            var earlier := if s.group in ranges then ranges[s.group] else [];
            Covered(spans[..k + 1], ranges[s.group := earlier + [(s.start, s.stop)]], g)
  {
    var s := spans[k];
    AppendSpan(spans, k, g);
    hide Indices;
    if s.group == g {
      var earlier := if g in ranges then ranges[g] else [];
      assert RangeIndices(earlier) == Indices(spans[..k], g);
      AppendRange(earlier, s.start, s.stop);
    } else {
      assert Indices(spans[..k], g) + [] == Indices(spans[..k], g);
    }
  }

  lemma RangeOneSpan(spans: seq<Span>, ranges: map<Group, seq<(nat, nat)>>, k: nat)
    requires k < |spans| && Ranged(spans[..k], ranges)
    ensures var s := spans[k];
            var earlier := if s.group in ranges then ranges[s.group] else [];
            Ranged(spans[..k + 1], ranges[s.group := earlier + [(s.start, s.stop)]])
  {
    hide Covered, Indices;
    var s, more := spans[k], spans[..k + 1];
    var earlier := if s.group in ranges then ranges[s.group] else [];
    var ranges' := ranges[s.group := earlier + [(s.start, s.stop)]];
    assert SpanGroups(more) == SpanGroups(spans[..k]) + [s.group];
    forall g ensures Covered(more, ranges', g) {
      RangeOneGroup(spans, ranges, k, g);
    }
  }

  lemma AllCovered(spans: seq<Span>, ranges: map<Group, seq<(nat, nat)>>)
    requires Ranged(spans, ranges)
    ensures RangesOf(spans, ranges)
  {
    hide RangeIndices, Indices;
    forall g | g in ranges ensures RangeIndices(ranges[g]) == Indices(spans, g) {
      assert Covered(spans, ranges, g);
    }
  }

  lemma NextSpan(spans: seq<Span>, k: nat)
    requires k < |spans|
    ensures SpanLocations(spans[..k + 1]) == SpanLocations(spans[..k]) + [spans[k].group.location]
    ensures var s := spans[k];
            TotalRows(spans[..k + 1]) == TotalRows(spans[..k]) + if s.start <= s.stop then s.stop - s.start else 0
  {
    assert spans[..k + 1][..k] == spans[..k];
  }

  lemma AppendRange(ranges: seq<(nat, nat)>, start: nat, stop: nat)
    ensures RangeIndices(ranges + [(start, stop)]) == RangeIndices(ranges) + Interval(start, stop)
    ensures RangeIndices([]) == []
  {
    assert (ranges + [(start, stop)])[..|ranges|] == ranges;
  }

  lemma AppendSpan(spans: seq<Span>, k: nat, g: Group)
    requires k < |spans|
    ensures Indices(spans[..k + 1], g) ==
            Indices(spans[..k], g) + if spans[k].group == g then Interval(spans[k].start, spans[k].stop) else []
  {
    assert spans[..k + 1][..k] == spans[..k];
  }

  method SampleRowSpans(spans: seq<Span>, rank: Ranking, maximum: nat) returns (s: Selection)
    ensures s == FastSelection(spans, rank, maximum)
  {
    var ranges: map<Group, seq<(nat, nat)>> := map[];
    var locations: seq<string> := [];
    var sourceRows: nat := 0;
    for k := 0 to |spans|
      invariant Ranged(spans[..k], ranges)
      invariant locations == SpanLocations(spans[..k])
      invariant sourceRows == TotalRows(spans[..k])
    {
      RangeOneSpan(spans, ranges, k);
      NextSpan(spans, k);
      hide Ranged, FastSelection, TotalRows, SpanLocations;
      var span := spans[k];
      var earlier := if span.group in ranges then ranges[span.group] else [];
      ranges := ranges[span.group := earlier + [(span.start, span.stop)]];
      locations := locations + [span.group.location];
      sourceRows := sourceRows + if span.start <= span.stop then span.stop - span.start else 0;
    }
    assert spans[..|spans|] == spans;
    AllCovered(spans, ranges);
    hide SortedSet, Sort, Indices, TotalRows, DrawnFromSpans;
    var sampled := SelectSpanRows(ranges, rank, maximum, spans);
    var groups := SortedGroups(ranges.Keys, SpanGroups(spans));
    s := Selection(SortedSet(StringLe, locations), groups, sourceRows, sampled);
  }

  method SpansForRole(spans: seq<Span>, dealt: seq<string>, role: Role) returns (chosen: seq<Span>)
    ensures chosen == SpansOfRole(spans, dealt, role)
  {
    chosen := [];
    for k := 0 to |spans|
      invariant chosen == SpansOfRole(spans[..k], dealt, role)
    {
      assert spans[..k + 1][..k] == spans[..k];
      if RoleOfLocation(dealt, spans[k].group.location) == role {
        chosen := chosen + [spans[k]];
      }
    }
    assert spans[..|spans|] == spans;
  }

  lemma NoRowsNoSpans(spans: seq<Span>, key: string -> int, role: Role)
    requires Tile(spans)
    ensures var dealt := SortedSet(ByKey(key), SpanLocations(spans));
            SpansOfRole(spans, dealt, role) == [] <==> PartitionOfRole(Expand(spans), key, role) == []
  {
    hide Sort, SortedSet;
    var dealt := SortedSet(ByKey(key), SpanLocations(spans));
    var chosen := SpansOfRole(spans, dealt, role);
    SameDeal(spans, key);
    RoleCommutesWithExpand(spans, dealt, role);
    if chosen != [] {
      var n := |chosen| - 1;
      assert chosen[n] in chosen;
      SpansOfRoleMember(spans, dealt, role, chosen[n]);
      var k :| 0 <= k < |spans| && spans[k] == chosen[n];
      assert |SpanRows(chosen[n])| > 0;
    }
  }

  /** The compact procedure returns exactly what the row-by-row procedure returns on the
      expanded rows, errors included. */
  method PartitionAndSample(spans: seq<Span>, key: string -> int, rank: Ranking, maximum: nat)
    returns (r: Result<Roles, SelectionError>)
    requires ValidAdapter(spans)
    ensures r == SelectRowByRow(Expand(spans), key, rank, maximum)
  {
    hide SortedSet, PartitionOfRole, SlowSelection, FastSelection, SpansOfRole, ValidRows, AnyOverlap;
    ghost var rows := Expand(spans);
    ExpandedAdapterIsValid(spans);
    NoSplitOverlap(rows, key, rank, maximum);
    SameDeal(spans, key);
    var dealt := SortedSet(ByKey(key), SpanLocations(spans));
    if TooFewLocations(|dealt|) {
      return Failure(EmptyLocationPartition);
    }
    var train := SpansForRole(spans, dealt, Train);
    var validation := SpansForRole(spans, dealt, Validation);
    var test := SpansForRole(spans, dealt, Test);
    NoRowsNoSpans(spans, key, Train);
    NoRowsNoSpans(spans, key, Validation);
    NoRowsNoSpans(spans, key, Test);
    if train == [] || validation == [] || test == [] {
      return Failure(EmptyRowPartition);
    }
    FastRefinesSlow(spans, key, rank, maximum, Train);
    FastRefinesSlow(spans, key, rank, maximum, Validation);
    FastRefinesSlow(spans, key, rank, maximum, Test);
    var a := SampleRowSpans(train, rank, maximum);
    var b := SampleRowSpans(validation, rank, maximum);
    var c := SampleRowSpans(test, rank, maximum);
    return Success(Roles(a, b, c));
  }
}
