/**
 * Which rows are drawn: in every role the rows of a group with the least
 * digests, as many as allowed, and the locations with the least digests train.
 */
module RowDraw {
  import opened Wrappers
  import opened Sets
  import opened Sorting
  import opened Text
  import opened RowOrders
  import opened RowSampling
  import opened RowSelection
  import opened RowOutcome

  // ---- What is promised -----------------------------------------------------------------

  /** The tuples of names, by the first name in which they differ. */
  ghost predicate GroupBefore(a: Group, b: Group) {
    if a.collection != b.collection then Alphabetical(a.collection, b.collection)
    else if a.source != b.source then Alphabetical(a.source, b.source)
    else if a.device != b.device then Alphabetical(a.device, b.device)
    else a.location != b.location && Alphabetical(a.location, b.location)
  }

  /** By group and then by index, each row once. */
  ghost predicate Listed(rows: seq<Row>) {
    forall i, j | 0 <= i < j < |rows| ::
      GroupBefore(rows[i].group, rows[j].group) || (rows[i].group == rows[j].group && rows[i].index < rows[j].index)
  }

  ghost function OfGroup(rows: seq<Row>, g: Group): set<Row> {
    set r | r in rows && r.group == g
  }

  /** `r` is drawn before `s`: by the digest, then by the index. */
  ghost predicate Lower(rank: Ranking, r: Row, s: Row) {
    rank(r.group, r.index) < rank(s.group, s.index) || (rank(r.group, r.index) == rank(s.group, s.index) && r.index < s.index)
  }

  /** From each group whose location is among `locations`, `drawn` holds as many rows as allowed, and none that is
      drawn is higher than one that is not. */
  ghost predicate LeastOf(rows: seq<Row>, locations: seq<string>, drawn: seq<Row>, rank: Ranking, maximum: nat) {
    && Listed(drawn)
    && (forall r | r in drawn :: r in rows && r.group.location in locations)
    && (forall g: Group | g.location in locations ::
          |OfGroup(drawn, g)| == if |OfGroup(rows, g)| < maximum then |OfGroup(rows, g)| else maximum)
    && (forall r, s | r in drawn && s in rows && s !in drawn && r.group == s.group :: Lower(rank, r, s))
  }

  /** No location of `a` has a greater digest than one of `b`; ties go by name. */
  ghost predicate DealtBefore(key: string -> int, a: seq<string>, b: seq<string>) {
    forall x, y | x in a && y in b :: key(x) < key(y) || (key(x) == key(y) && x != y && Alphabetical(x, y))
  }

  /** The names of the locations of `rows`, shared out: each in one list, in order. */
  ghost predicate SharedOut(rows: seq<Row>, a: seq<string>, b: seq<string>, c: seq<string>) {
    && (forall r | r in rows :: r.group.location in a + b + c)
    && (forall x | x in a + b + c :: exists r :: r in rows && r.group.location == x)
    && InOrder(a) && InOrder(b) && InOrder(c)
  }

  ghost predicate InOrder(names: seq<string>) {
    forall i, j | 0 <= i < j < |names| :: names[i] != names[j] && Alphabetical(names[i], names[j])
  }

  // ---- The order of the rows --------------------------------------------------------------

  lemma FieldsDiffer(x: string, y: string, a: seq<string>, b: seq<string>)
    ensures FieldsLe([x] + a, [y] + b) <==> if x == y then FieldsLe(a, b) else Alphabetical(x, y)
  {
    StringLeIsAlphabetical(x, y);
    hide Alphabetical, StringLe;
    assert ([x] + a)[1..] == a && ([y] + b)[1..] == b;
  }

  lemma GroupLeIsByFields(a: Group, b: Group)
    ensures GroupLe(a, b) <==> a == b || GroupBefore(a, b)
  {
    hide Alphabetical, StringLe, FieldsLe;
    assert Fields(a) == [a.collection] + ([a.source] + ([a.device] + ([a.location] + [])));
    assert Fields(b) == [b.collection] + ([b.source] + ([b.device] + ([b.location] + [])));
    FieldsDiffer(a.collection, b.collection, [a.source] + ([a.device] + ([a.location] + [])), [b.source] + ([b.device] + ([b.location] + [])));
    FieldsDiffer(a.source, b.source, [a.device] + ([a.location] + []), [b.device] + ([b.location] + []));
    FieldsDiffer(a.device, b.device, [a.location] + [], [b.location] + []);
    FieldsDiffer(a.location, b.location, [], []);
    assert FieldsLe([], []) by {
      NothingToCompare();
    }
  }

  lemma NothingToCompare()
    ensures FieldsLe([], [])
  {
  }

  lemma RowLeIsPreorder()
    ensures Preorder(RowLe)
  {
    GroupLeIsTotalOrder();
  }

  lemma SortedRowsAreListed(rows: seq<Row>)
    requires Distinct(rows)
    ensures Listed(Sort(RowLe, rows))
  {
    var sorted := Sort(RowLe, rows);
    RowLeIsPreorder();
    SortSorts(RowLe, rows);
    DistinctPermutation(rows, sorted);
    hide Sort, GroupLe, GroupBefore;
    forall i, j | 0 <= i < j < |sorted|
      ensures GroupBefore(sorted[i].group, sorted[j].group) || (sorted[i].group == sorted[j].group && sorted[i].index < sorted[j].index)
    {
      assert RowLe(sorted[i], sorted[j]) && sorted[i] != sorted[j];
      GroupLeIsByFields(sorted[i].group, sorted[j].group);
    }
  }

  lemma SortedNamesAreInOrder(names: seq<string>)
    ensures InOrder(SortedSet(StringLe, names))
  {
    var sorted := SortedSet(StringLe, names);
    StringLeIsTotalOrder();
    SortSorts(StringLe, Dedup(names));
    SortedSetMembers(StringLe, names);
    hide SortedSet, StringLe, Alphabetical;
    forall i, j | 0 <= i < j < |sorted| ensures Alphabetical(sorted[i], sorted[j]) {
      StringLeIsAlphabetical(sorted[i], sorted[j]);
    }
  }

  // ---- One group -----------------------------------------------------------------------------

  lemma RowRankIsPreorder(rank: Ranking)
    ensures Preorder(RowRank(rank))
  {
  }

  /** What stands before the cut is not after what stands behind it. */
  lemma PrefixIsLeast<T(!new)>(le: (T, T) -> bool, s: seq<T>, k: nat, x: T, y: T)
    requires Sorted(le, s) && x in Prefix(s, k) && y in s && y !in Prefix(s, k)
    ensures le(x, y)
  {
    var i :| 0 <= i < |Prefix(s, k)| && Prefix(s, k)[i] == x;
    var j :| 0 <= j < |s| && s[j] == y;
    assert j < |Prefix(s, k)| ==> Prefix(s, k)[j] == s[j];
  }

  lemma PrefixDistinct<T(!new)>(s: seq<T>, k: nat)
    requires Distinct(s)
    ensures Distinct(Prefix(s, k)) && |Prefix(s, k)| == if |s| < k then |s| else k
  {
  }

  lemma {:induction false} InGroupDistinct(rows: seq<Row>, g: Group)
    requires Distinct(rows)
    ensures Distinct(InGroup(rows, g))
    decreases |rows|
  {
    if rows != [] {
      var n := |rows| - 1;
      InGroupDistinct(rows[..n], g);
      InGroupMember(rows[..n], g, rows[n]);
      assert rows[n] !in rows[..n];
    }
  }

  function Chosen(rows: seq<Row>, g: Group, rank: Ranking, maximum: nat): seq<Row> {
    Prefix(Sort(RowRank(rank), InGroup(rows, g)), maximum)
  }

  lemma ChosenMember(rows: seq<Row>, g: Group, rank: Ranking, maximum: nat, r: Row)
    requires r in Chosen(rows, g, rank, maximum)
    ensures r in rows && r.group == g
  {
    var ranked := Sort(RowRank(rank), InGroup(rows, g));
    assert r in ranked;
    MultisetMembers(InGroup(rows, g), ranked);
    InGroupMember(rows, g, r);
  }

  lemma ChosenCount(rows: seq<Row>, g: Group, rank: Ranking, maximum: nat)
    requires Distinct(rows)
    ensures Distinct(Chosen(rows, g, rank, maximum))
    ensures |Members(Chosen(rows, g, rank, maximum))| == if |OfGroup(rows, g)| < maximum then |OfGroup(rows, g)| else maximum
  {
    hide Sort, Prefix, InGroup, RowRank;
    var ranked := Sort(RowRank(rank), InGroup(rows, g));
    InGroupDistinct(rows, g);
    DistinctPermutation(InGroup(rows, g), ranked);
    PrefixDistinct(ranked, maximum);
    MembersCount(Prefix(ranked, maximum));
    MembersCount(InGroup(rows, g));
    forall r ensures r in InGroup(rows, g) <==> r in OfGroup(rows, g) {
      InGroupMember(rows, g, r);
    }
    assert Members(InGroup(rows, g)) == OfGroup(rows, g);
  }

  lemma ChosenIsLeast(rows: seq<Row>, g: Group, rank: Ranking, maximum: nat, r: Row, s: Row)
    requires r in Chosen(rows, g, rank, maximum) && s in rows && s.group == g && s !in Chosen(rows, g, rank, maximum)
    ensures Lower(rank, r, s)
  {
    hide Sort, Prefix, InGroup;
    var ranked := Sort(RowRank(rank), InGroup(rows, g));
    RowRankIsPreorder(rank);
    SortSorts(RowRank(rank), InGroup(rows, g));
    MultisetMembers(InGroup(rows, g), ranked);
    InGroupMember(rows, g, s);
    PrefixIsLeast(RowRank(rank), ranked, maximum, r, s);
    ChosenMember(rows, g, rank, maximum, r);
    assert r != s && r.group == s.group;
  }

  // ---- One role --------------------------------------------------------------------------------

  lemma {:induction false} DrawnIsChosen(rows: seq<Row>, groups: seq<Group>, rank: Ranking, maximum: nat, r: Row)
    ensures r in Drawn(rows, groups, rank, maximum) <==> r.group in groups && r in Chosen(rows, r.group, rank, maximum)
    decreases |groups|
  {
    hide Sort, Prefix, InGroup;
    if groups != [] {
      var n := |groups| - 1;
      DrawnIsChosen(rows, groups[..n], rank, maximum, r);
      if r in Chosen(rows, groups[n], rank, maximum) {
        ChosenMember(rows, groups[n], rank, maximum, r);
      }
      assert r.group in groups <==> r.group in groups[..n] || r.group == groups[n];
    }
  }

  lemma {:induction false} DrawnDistinct(rows: seq<Row>, groups: seq<Group>, rank: Ranking, maximum: nat)
    requires Distinct(rows) && Distinct(groups)
    ensures Distinct(Drawn(rows, groups, rank, maximum))
    decreases |groups|
  {
    hide Sort, Prefix, InGroup;
    if groups != [] {
      var n := |groups| - 1;
      DrawnDistinct(rows, groups[..n], rank, maximum);
      var before, last := Drawn(rows, groups[..n], rank, maximum), Chosen(rows, groups[n], rank, maximum);
      ChosenCount(rows, groups[n], rank, maximum);
      forall r | r in before ensures r !in last {
        DrawnIsChosen(rows, groups[..n], rank, maximum, r);
        assert r.group in groups[..n] && groups[n] !in groups[..n];
        if r in last {
          ChosenMember(rows, groups[n], rank, maximum, r);
        }
      }
      AppendApart(before, last);
    }
  }

  lemma AppendApart<T(!new)>(s: seq<T>, t: seq<T>)
    requires Distinct(s) && Distinct(t) && forall x :: x in s ==> x !in t
    ensures Distinct(s + t)
  {
    forall i, j | 0 <= i < j < |s + t| ensures (s + t)[i] != (s + t)[j] {
      if i < |s| <= j {
        assert s[i] in s && t[j - |s|] in t;
      }
    }
  }

  lemma SampledIsChosen(part: seq<Row>, rank: Ranking, maximum: nat, r: Row)
    ensures r in SampledRows(part, rank, maximum) <==> r in Chosen(part, r.group, rank, maximum)
  {
    hide Sort, Drawn, SortedSet, Chosen;
    var groups := SortedSet(GroupLe, Groups(part));
    MultisetMembers(Drawn(part, groups, rank, maximum), SampledRows(part, rank, maximum));
    DrawnIsChosen(part, groups, rank, maximum, r);
    SortedSetMembers(GroupLe, Groups(part));
    if r in Chosen(part, r.group, rank, maximum) {
      ChosenMember(part, r.group, rank, maximum, r);
      var k :| 0 <= k < |part| && part[k] == r;
      assert Groups(part)[k] == r.group;
    }
  }

  lemma SampledAreListed(part: seq<Row>, rank: Ranking, maximum: nat)
    requires Distinct(part)
    ensures Listed(SampledRows(part, rank, maximum))
  {
    hide Sort, Drawn, SortedSet;
    var groups := SortedSet(GroupLe, Groups(part));
    SortedSetMembers(GroupLe, Groups(part));
    DrawnDistinct(part, groups, rank, maximum);
    SortedRowsAreListed(Drawn(part, groups, rank, maximum));
  }

  /** A role's rows are those of its locations. */
  ghost predicate RowsOf(rows: seq<Row>, locations: seq<string>, part: seq<Row>) {
    forall r :: r in part <==> r in rows && r.group.location in locations
  }

  lemma LeastAreSampled(rows: seq<Row>, locations: seq<string>, part: seq<Row>, rank: Ranking, maximum: nat)
    requires Distinct(part) && RowsOf(rows, locations, part)
    ensures LeastOf(rows, locations, SampledRows(part, rank, maximum), rank, maximum)
  {
    hide SampledRows, Chosen, Lower, Listed;
    var drawn := SampledRows(part, rank, maximum);
    SampledAreListed(part, rank, maximum);
    forall r ensures r in drawn <==> r in Chosen(part, r.group, rank, maximum) {
      SampledIsChosen(part, rank, maximum, r);
    }
    forall r | r in drawn ensures r in rows && r.group.location in locations {
      ChosenMember(part, r.group, rank, maximum, r);
    }
    forall g: Group | g.location in locations
      ensures |OfGroup(drawn, g)| == if |OfGroup(rows, g)| < maximum then |OfGroup(rows, g)| else maximum
    {
      SampledOfGroup(rows, locations, part, drawn, rank, maximum, g);
    }
    forall r, s | r in drawn && s in rows && s !in drawn && r.group == s.group ensures Lower(rank, r, s) {
      ChosenMember(part, r.group, rank, maximum, r);
      ChosenIsLeast(part, r.group, rank, maximum, r, s);
    }
  }

  lemma SampledOfGroup(rows: seq<Row>, locations: seq<string>, part: seq<Row>, drawn: seq<Row>, rank: Ranking, maximum: nat, g: Group)
    requires Distinct(part) && RowsOf(rows, locations, part) && g.location in locations
    requires forall r :: r in drawn <==> r in Chosen(part, r.group, rank, maximum)
    ensures |OfGroup(drawn, g)| == if |OfGroup(rows, g)| < maximum then |OfGroup(rows, g)| else maximum
  {
    hide Chosen;
    ChosenCount(part, g, rank, maximum);
    assert OfGroup(part, g) == OfGroup(rows, g);
    forall r ensures r in OfGroup(drawn, g) <==> r in Members(Chosen(part, g, rank, maximum)) {
      if r in Chosen(part, g, rank, maximum) {
        ChosenMember(part, g, rank, maximum, r);
      }
    }
    assert OfGroup(drawn, g) == Members(Chosen(part, g, rank, maximum));
  }

  // ---- All roles ----------------------------------------------------------------------------------

  lemma PartitionIsDistinct(rows: seq<Row>, key: string -> int, role: Role)
    requires Distinct(rows)
    ensures Distinct(PartitionOfRole(rows, key, role))
  {
    hide Sort, SortedSet;
    var dealt := SortedSet(ByKey(key), Locations(rows));
    RowsOfRoleDistinct(rows, dealt, role);
    DistinctPermutation(RowsOfRole(rows, dealt, role), PartitionOfRole(rows, key, role));
  }

  lemma {:induction false} RowsOfRoleDistinct(rows: seq<Row>, dealt: seq<string>, role: Role)
    requires Distinct(rows)
    ensures Distinct(RowsOfRole(rows, dealt, role))
    decreases |rows|
  {
    hide RoleOfLocation;
    if rows != [] {
      var n := |rows| - 1;
      RowsOfRoleDistinct(rows[..n], dealt, role);
      RowsOfRoleMember(rows[..n], dealt, role, rows[n]);
      assert rows[n] !in rows[..n];
    }
  }

  ghost function LocationsOf(rows: seq<Row>, key: string -> int, role: Role): seq<string> {
    SortedSet(StringLe, Locations(PartitionOfRole(rows, key, role)))
  }

  lemma LocationInRole(rows: seq<Row>, key: string -> int, role: Role, x: string)
    ensures x in LocationsOf(rows, key, role) <==>
            x in Locations(rows) && RoleOfLocation(SortedSet(ByKey(key), Locations(rows)), x) == role
  {
    hide SortedSet, PartitionOfRole, RoleOfLocation;
    var part := PartitionOfRole(rows, key, role);
    SortedSetMembers(StringLe, Locations(part));
    if x in LocationsOf(rows, key, role) {
      var k :| 0 <= k < |part| && Locations(part)[k] == x;
      PartitionMember(rows, key, role, part[k]);
      var j :| 0 <= j < |rows| && rows[j] == part[k];
      assert Locations(rows)[j] == x;
    }
    if x in Locations(rows) && RoleOfLocation(SortedSet(ByKey(key), Locations(rows)), x) == role {
      var j :| 0 <= j < |rows| && Locations(rows)[j] == x;
      RowInRole(rows, key, role, rows[j]);
      var k :| 0 <= k < |part| && part[k] == rows[j];
      assert Locations(part)[k] == x;
    }
  }

  lemma PartitionIsRowsOf(rows: seq<Row>, key: string -> int, role: Role)
    ensures RowsOf(rows, LocationsOf(rows, key, role), PartitionOfRole(rows, key, role))
  {
    hide SortedSet, PartitionOfRole, RoleOfLocation, LocationsOf;
    forall r ensures r in PartitionOfRole(rows, key, role) <==> r in rows && r.group.location in LocationsOf(rows, key, role) {
      LocationInRole(rows, key, role, r.group.location);
      if r in PartitionOfRole(rows, key, role) {
        PartitionMember(rows, key, role, r);
        var j :| 0 <= j < |rows| && rows[j] == r;
        assert Locations(rows)[j] == r.group.location;
      }
      if r in rows && r.group.location in LocationsOf(rows, key, role) {
        RowInRole(rows, key, role, r);
      }
    }
  }

  lemma {:induction false} PositionFinds(s: seq<string>, x: string)
    requires x in s
    ensures Position(s, x) < |s| && s[Position(s, x)] == x
  {
    if s[0] != x {
      PositionFinds(s[1..], x);
    }
  }

  ghost predicate Earlier(a: Role, b: Role) {
    (a.Train? && !b.Train?) || (a.Validation? && b.Test?)
  }

  lemma RolesAreDealtInOrder(rows: seq<Row>, key: string -> int, a: Role, b: Role)
    requires Earlier(a, b)
    ensures DealtBefore(key, LocationsOf(rows, key, a), LocationsOf(rows, key, b))
  {
    hide SortedSet, LocationsOf, Alphabetical, StringLe;
    var dealt := SortedSet(ByKey(key), Locations(rows));
    forall x, y | x in LocationsOf(rows, key, a) && y in LocationsOf(rows, key, b)
      ensures key(x) < key(y) || (key(x) == key(y) && x != y && Alphabetical(x, y))
    {
      LocationInRole(rows, key, a, x);
      LocationInRole(rows, key, b, y);
      assert Position(dealt, x) < Position(dealt, y);
      DealtByKey(rows, key, x, y);
      StringLeIsAlphabetical(x, y);
    }
  }

  lemma DealtByKey(rows: seq<Row>, key: string -> int, x: string, y: string)
    requires x in Locations(rows) && y in Locations(rows)
    requires var dealt := SortedSet(ByKey(key), Locations(rows)); Position(dealt, x) < Position(dealt, y)
    ensures x != y && (key(x) < key(y) || (key(x) == key(y) && StringLe(x, y)))
  {
    var dealt := SortedSet(ByKey(key), Locations(rows));
    SortedSetMembers(ByKey(key), Locations(rows));
    ByKeyIsTotalOrder(key);
    SortSorts(ByKey(key), Dedup(Locations(rows)));
    hide SortedSet, StringLe;
    PositionFinds(dealt, x);
    PositionFinds(dealt, y);
    assert ByKey(key)(x, y);
  }

  lemma SharedOutByMembers(rows: seq<Row>, a: seq<string>, b: seq<string>, c: seq<string>)
    requires InOrder(a) && InOrder(b) && InOrder(c) && forall x :: x in a + b + c <==> x in Locations(rows)
    ensures SharedOut(rows, a, b, c)
  {
    hide InOrder;
    var all := a + b + c;
    forall x | x in all ensures exists r :: r in rows && r.group.location == x {
      var j :| 0 <= j < |rows| && Locations(rows)[j] == x;
      assert rows[j] in rows;
    }
    forall r | r in rows ensures r.group.location in all {
      var j :| 0 <= j < |rows| && rows[j] == r;
      assert Locations(rows)[j] == r.group.location;
    }
  }

  lemma AllAreSharedOut(rows: seq<Row>, key: string -> int)
    ensures SharedOut(rows, LocationsOf(rows, key, Train), LocationsOf(rows, key, Validation), LocationsOf(rows, key, Test))
  {
    var a, b, c := LocationsOf(rows, key, Train), LocationsOf(rows, key, Validation), LocationsOf(rows, key, Test);
    SortedNamesAreInOrder(Locations(PartitionOfRole(rows, key, Train)));
    SortedNamesAreInOrder(Locations(PartitionOfRole(rows, key, Validation)));
    SortedNamesAreInOrder(Locations(PartitionOfRole(rows, key, Test)));
    assert InOrder(a) && InOrder(b) && InOrder(c);
    hide *;
    forall x ensures x in a + b + c <==> x in Locations(rows) {
      LocationInRole(rows, key, Train, x);
      LocationInRole(rows, key, Validation, x);
      LocationInRole(rows, key, Test, x);
    }
    SharedOutByMembers(rows, a, b, c);
  }

  /** What one role gets. */
  ghost predicate Draws(rows: seq<Row>, s: Selection, rank: Ranking, maximum: nat) {
    && LeastOf(rows, s.locations, s.sampled, rank, maximum)
    && s.sourceRows == |set r | r in rows && r.group.location in s.locations|
    && (forall g :: g in s.groups <==> g.location in s.locations && exists r :: r in rows && r.group == g)
    && forall i, j | 0 <= i < j < |s.groups| :: GroupBefore(s.groups[i], s.groups[j])
  }

  lemma SortedGroupsAreInOrder(groups: seq<Group>)
    ensures var l := SortedSet(GroupLe, groups); forall i, j | 0 <= i < j < |l| :: GroupBefore(l[i], l[j])
  {
    var l := SortedSet(GroupLe, groups);
    GroupLeIsTotalOrder();
    SortSorts(GroupLe, Dedup(groups));
    SortedSetMembers(GroupLe, groups);
    hide SortedSet, GroupLe, GroupBefore;
    forall i, j | 0 <= i < j < |l| ensures GroupBefore(l[i], l[j]) {
      GroupLeIsByFields(l[i], l[j]);
    }
  }

  lemma RoleDraws(rows: seq<Row>, key: string -> int, rank: Ranking, maximum: nat, role: Role)
    requires Distinct(rows)
    ensures var s := SlowSelection(PartitionOfRole(rows, key, role), rank, maximum);
            s.locations == LocationsOf(rows, key, role) && Draws(rows, s, rank, maximum)
  {
    hide SortedSet, PartitionOfRole, SampledRows, LeastOf, GroupBefore;
    var part, locations := PartitionOfRole(rows, key, role), LocationsOf(rows, key, role);
    PartitionIsDistinct(rows, key, role);
    PartitionIsRowsOf(rows, key, role);
    LeastAreSampled(rows, locations, part, rank, maximum);
    SortedGroupsAreInOrder(Groups(part));
    SortedSetMembers(GroupLe, Groups(part));
    MembersCount(part);
    assert Members(part) == set r | r in rows && r.group.location in locations;
    forall g ensures g in Groups(part) <==> g.location in locations && exists r :: r in rows && r.group == g {
      if g in Groups(part) {
        var k :| 0 <= k < |part| && Groups(part)[k] == g;
        assert part[k] in part;
      }
      if r :| r in rows && r.group == g && g.location in locations {
        var k :| 0 <= k < |part| && part[k] == r;
        assert Groups(part)[k] == g;
      }
    }
  }

  /** The roles of valid rows, said by the digests alone. */
  ghost predicate Drawing(rows: seq<Row>, r: Roles, key: string -> int, rank: Ranking, maximum: nat) {
    && Draws(rows, r.train, rank, maximum) && Draws(rows, r.validation, rank, maximum) && Draws(rows, r.test, rank, maximum)
    && SharedOut(rows, r.train.locations, r.validation.locations, r.test.locations)
    && DealtBefore(key, r.train.locations, r.validation.locations)
    && DealtBefore(key, r.train.locations, r.test.locations)
    && DealtBefore(key, r.validation.locations, r.test.locations)
  }

  lemma SelectionsOf(rows: seq<Row>, key: string -> int, rank: Ranking, maximum: nat)
    requires SelectRowByRow(rows, key, rank, maximum).Success?
    ensures var r := SelectRowByRow(rows, key, rank, maximum).value;
            && r.train == SlowSelection(PartitionOfRole(rows, key, Train), rank, maximum)
            && r.validation == SlowSelection(PartitionOfRole(rows, key, Validation), rank, maximum)
            && r.test == SlowSelection(PartitionOfRole(rows, key, Test), rank, maximum)
  {
    hide ValidRows, TooFewLocations, PartitionOfRole, SlowSelection, AnyOverlap, SortedSet;
  }

  lemma ValidRowsAreDistinct(rows: seq<Row>)
    requires ValidRows(rows)
    ensures Distinct(rows)
  {
  }

  lemma ValidRowsAreDrawn(rows: seq<Row>, key: string -> int, rank: Ranking, maximum: nat)
    requires ValidRows(rows)
    ensures var r := SelectRowByRow(rows, key, rank, maximum); r.Success? && Drawing(rows, r.value, key, rank, maximum)
  {
    ValidRowsAreDistinct(rows);
    ValidRowsAreSplit(rows, key, rank, maximum);
    hide *;
    SelectionsOf(rows, key, rank, maximum);
    RoleDraws(rows, key, rank, maximum, Train);
    RoleDraws(rows, key, rank, maximum, Validation);
    RoleDraws(rows, key, rank, maximum, Test);
    AllAreSharedOut(rows, key);
    EveryRoleIsDealt(rows, key);
    DrawingInParts(rows, SelectRowByRow(rows, key, rank, maximum).value, key, rank, maximum);
  }

  lemma EveryRoleIsDealt(rows: seq<Row>, key: string -> int)
    ensures DealtBefore(key, LocationsOf(rows, key, Train), LocationsOf(rows, key, Validation))
    ensures DealtBefore(key, LocationsOf(rows, key, Train), LocationsOf(rows, key, Test))
    ensures DealtBefore(key, LocationsOf(rows, key, Validation), LocationsOf(rows, key, Test))
  {
    hide DealtBefore, LocationsOf;
    RolesAreDealtInOrder(rows, key, Train, Validation);
    RolesAreDealtInOrder(rows, key, Train, Test);
    RolesAreDealtInOrder(rows, key, Validation, Test);
  }

  lemma DrawingInParts(rows: seq<Row>, r: Roles, key: string -> int, rank: Ranking, maximum: nat)
    requires Draws(rows, r.train, rank, maximum) && Draws(rows, r.validation, rank, maximum) && Draws(rows, r.test, rank, maximum)
    requires SharedOut(rows, r.train.locations, r.validation.locations, r.test.locations)
    requires DealtBefore(key, r.train.locations, r.validation.locations)
    requires DealtBefore(key, r.train.locations, r.test.locations)
    requires DealtBefore(key, r.validation.locations, r.test.locations)
    ensures Drawing(rows, r, key, rank, maximum)
  {
  }

  /** So are those the compact procedure returns for a validated adapter: it reads only the spans, and this is said of the rows they stand for. */
  lemma ValidAdapterIsDrawn(spans: seq<Span>, key: string -> int, rank: Ranking, maximum: nat)
    requires ValidAdapter(spans)
    ensures var r := SelectRowByRow(Expand(spans), key, rank, maximum); r.Success? && Drawing(Expand(spans), r.value, key, rank, maximum)
  {
    hide *;
    ExpandedAdapterIsValid(spans);
    ValidRowsAreDrawn(Expand(spans), key, rank, maximum);
  }
}
