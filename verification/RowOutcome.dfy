/** A validated adapter is always split: how many locations each role gets. */
module RowOutcome {
  import opened Wrappers
  import opened Sets
  import opened Sorting
  import opened Text
  import opened RowOrders
  import opened RowSampling
  import opened RowSelection

  /** The dealt locations of a role: from, and up to. */
  function RangeOf(n: nat, role: Role): (nat, nat) {
    var train, validation := n * 80 / 100, n * 10 / 100;
    match role
    case Train => (0, train)
    case Validation => (train, train + validation)
    case Test => (train + validation, n)
  }

  lemma RangesFit(n: nat, role: Role)
    ensures RangeOf(n, role).0 <= RangeOf(n, role).1 <= n
    ensures n >= 10 ==> RangeOf(n, role).0 < RangeOf(n, role).1
    ensures TooFewLocations(n) <==> n < 10
  {
  }

  lemma {:induction false} PositionAt(s: seq<string>, i: nat)
    requires Distinct(s) && i < |s|
    ensures Position(s, s[i]) == i
  {
    if i > 0 {
      assert s[0] != s[i] && s[1..][i - 1] == s[i];
      PositionAt(s[1..], i - 1);
    }
  }

  lemma DealtTo(rows: seq<Row>, key: string -> int, role: Role, x: string)
    requires x in Locations(PartitionOfRole(rows, key, role))
    ensures var dealt := SortedSet(ByKey(key), Locations(rows));
            var (lo, hi) := RangeOf(|dealt|, role);
            0 <= lo <= hi <= |dealt| && x in dealt[lo..hi]
  {
    hide SortedSet, Sort, PartitionOfRole;
    var dealt := SortedSet(ByKey(key), Locations(rows));
    var (lo, hi) := RangeOf(|dealt|, role);
    RangesFit(|dealt|, role);
    SortedSetMembers(ByKey(key), Locations(rows));
    var part := PartitionOfRole(rows, key, role);
    var k :| 0 <= k < |part| && Locations(part)[k] == x;
    PartitionMember(rows, key, role, part[k]);
    var j :| 0 <= j < |rows| && rows[j] == part[k];
    assert Locations(rows)[j] == x;
    assert x in Locations(rows) && x in dealt;
    var i :| 0 <= i < |dealt| && dealt[i] == x;
    PositionAt(dealt, i);
    assert dealt[lo..hi][i - lo] == x;
  }

  lemma HeldByRole(rows: seq<Row>, key: string -> int, role: Role, i: nat)
    requires var dealt := SortedSet(ByKey(key), Locations(rows));
             var (lo, hi) := RangeOf(|dealt|, role);
             lo <= i < hi <= |dealt|
    ensures SortedSet(ByKey(key), Locations(rows))[i] in Locations(PartitionOfRole(rows, key, role))
  {
    hide SortedSet, Sort, PartitionOfRole;
    var dealt := SortedSet(ByKey(key), Locations(rows));
    SortedSetMembers(ByKey(key), Locations(rows));
    PositionAt(dealt, i);
    assert dealt[i] in dealt && dealt[i] in Locations(rows);
    var j :| 0 <= j < |rows| && Locations(rows)[j] == dealt[i];
    RowInRole(rows, key, role, rows[j]);
    var part := PartitionOfRole(rows, key, role);
    var k :| 0 <= k < |part| && part[k] == rows[j];
    assert Locations(part)[k] == dealt[i];
  }

  /** The locations of a role's rows are those dealt to it. */
  lemma RoleLocation(rows: seq<Row>, key: string -> int, role: Role, x: string)
    ensures var dealt := SortedSet(ByKey(key), Locations(rows));
            var (lo, hi) := RangeOf(|dealt|, role);
            0 <= lo <= hi <= |dealt| && (x in Locations(PartitionOfRole(rows, key, role)) <==> x in dealt[lo..hi])
  {
    hide SortedSet, PartitionOfRole, RangeOf, Locations;
    var dealt := SortedSet(ByKey(key), Locations(rows));
    var (lo, hi) := RangeOf(|dealt|, role);
    RangesFit(|dealt|, role);
    if x in Locations(PartitionOfRole(rows, key, role)) {
      DealtTo(rows, key, role, x);
    }
    if x in dealt[lo..hi] {
      var i :| lo <= i < hi && dealt[i] == x;
      HeldByRole(rows, key, role, i);
    }
  }

  lemma RowInRole(rows: seq<Row>, key: string -> int, role: Role, r: Row)
    requires r in rows && RoleOfLocation(SortedSet(ByKey(key), Locations(rows)), r.group.location) == role
    ensures r in PartitionOfRole(rows, key, role)
  {
    var dealt := SortedSet(ByKey(key), Locations(rows));
    RowsOfRoleMember(rows, dealt, role, r);
    MultisetMembers(RowsOfRole(rows, dealt, role), PartitionOfRole(rows, key, role));
  }

  lemma SortedSetCount(le: (string, string) -> bool, s: seq<string>, t: seq<string>)
    requires Distinct(t) && forall x :: x in s <==> x in t
    ensures |SortedSet(le, s)| == |t|
  {
    hide SortedSet;
    SortedSetMembers(le, s);
    MembersCount(SortedSet(le, s));
    MembersCount(t);
    assert Members(SortedSet(le, s)) == Members(t);
  }

  lemma LocationsOfRole(rows: seq<Row>, key: string -> int, role: Role)
    ensures var dealt := SortedSet(ByKey(key), Locations(rows));
            var (lo, hi) := RangeOf(|dealt|, role);
            |SortedSet(StringLe, Locations(PartitionOfRole(rows, key, role)))| == hi - lo
  {
    hide SortedSet, PartitionOfRole, RangeOf;
    var dealt := SortedSet(ByKey(key), Locations(rows));
    var (lo, hi) := RangeOf(|dealt|, role);
    RangesFit(|dealt|, role);
    SortedSetMembers(ByKey(key), Locations(rows));
    forall x ensures x in Locations(PartitionOfRole(rows, key, role)) <==> x in dealt[lo..hi] {
      RoleLocation(rows, key, role, x);
    }
    SortedSetCount(StringLe, Locations(PartitionOfRole(rows, key, role)), dealt[lo..hi]);
  }

  ghost function LocationSet(rows: seq<Row>): set<string> {
    set g | g in Groups(rows) :: g.location
  }

  lemma DealtCount(rows: seq<Row>, key: string -> int)
    ensures |SortedSet(ByKey(key), Locations(rows))| == |LocationSet(rows)|
  {
    hide SortedSet;
    var dealt := SortedSet(ByKey(key), Locations(rows));
    SortedSetMembers(ByKey(key), Locations(rows));
    MembersCount(dealt);
    forall x ensures x in Members(dealt) <==> x in LocationSet(rows) {
      if x in Locations(rows) {
        var k :| 0 <= k < |rows| && Locations(rows)[k] == x;
        assert Groups(rows)[k] in Groups(rows);
      }
      if g :| g in Groups(rows) && g.location == x {
        var k :| 0 <= k < |rows| && Groups(rows)[k] == g;
        assert Locations(rows)[k] == x;
      }
    }
    assert Members(dealt) == LocationSet(rows);
  }

  lemma EnoughLocations(rows: seq<Row>)
    requires ValidRows(rows)
    ensures 10 <= |LocationSet(rows)| <= 256
  {
    var groups := set g | g in Groups(rows);
    assert LocationSet(rows) == set g | g in groups :: g.location;
  }

  lemma NoRowsNoLocations(rows: seq<Row>)
    ensures rows == [] ==> SortedSet(StringLe, Locations(rows)) == []
  {
  }

  /** Valid rows are never refused, and 80 and 10 percent of the locations, rounded down, and
      the rest go to the three roles. */
  lemma ValidRowsAreSplit(rows: seq<Row>, key: string -> int, rank: Ranking, maximum: nat)
    requires ValidRows(rows)
    ensures var r := SelectRowByRow(rows, key, rank, maximum);
            var n := |LocationSet(rows)|;
            && r.Success?
            && |r.value.train.locations| == n * 80 / 100
            && |r.value.validation.locations| == n * 10 / 100
            && |r.value.test.locations| == n - n * 80 / 100 - n * 10 / 100
  {
    hide SortedSet, PartitionOfRole, ValidRows, AnyOverlap, SampledRows, LocationSet;
    EnoughLocations(rows);
    DealtCount(rows, key);
    var n := |LocationSet(rows)|;
    RangesFit(n, Train);
    RangesFit(n, Validation);
    RangesFit(n, Test);
    LocationsOfRole(rows, key, Train);
    LocationsOfRole(rows, key, Validation);
    LocationsOfRole(rows, key, Test);
    NoRowsNoLocations(PartitionOfRole(rows, key, Train));
    NoRowsNoLocations(PartitionOfRole(rows, key, Validation));
    NoRowsNoLocations(PartitionOfRole(rows, key, Test));
    NoSplitOverlap(rows, key, rank, maximum);
  }

  lemma ExpandedLocations(spans: seq<Span>)
    requires ValidAdapter(spans)
    ensures LocationSet(Expand(spans)) == set g | g in SpanGroups(spans) :: g.location
  {
    hide DomainsDisjoint, NeighboursDiffer, OpaqueGroup, ValidIdentities;
    var rows := Expand(spans);
    TiledRows(spans);
    forall s | s in spans ensures s.start < s.stop {
      var k :| 0 <= k < |spans| && spans[k] == s;
    }
    SameGroups(rows, spans);
  }

  /** So the compact procedure never refuses a validated adapter, and shares its locations like that. */
  lemma ValidAdapterIsSplit(spans: seq<Span>, key: string -> int, rank: Ranking, maximum: nat)
    requires ValidAdapter(spans)
    ensures var r := SelectRowByRow(Expand(spans), key, rank, maximum);
            var n := |set g | g in SpanGroups(spans) :: g.location|;
            && r.Success?
            && |r.value.train.locations| == n * 80 / 100
            && |r.value.validation.locations| == n * 10 / 100
            && |r.value.test.locations| == n - n * 80 / 100 - n * 10 / 100
  {
    hide ValidAdapter, ValidRows, LocationSet, SelectRowByRow;
    ExpandedAdapterIsValid(spans);
    ExpandedLocations(spans);
    ValidRowsAreSplit(Expand(spans), key, rank, maximum);
  }
}
