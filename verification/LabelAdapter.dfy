/**
 * What the encoder writes is what the reader of the adapter asks for, and
 * stands for the labels row by row.
 */
module LabelAdapter {
  import opened Wrappers
  import opened Sets
  import opened LabelRuns
  import opened RowOrders
  import RowSampling
  import RowSelection
  import opened Bytes
  import opened OpaqueIds
  import opened Text

  /** The opaque identifiers of one collection. */
  datatype Identifiers = Identifiers(collection: string, source: int -> string, device: int -> string, location: int -> string)

  /** The values a label can have. */
  predicate Word(n: int) {
    0 <= n < 0x8000_0000_0000_0000
  }

  ghost predicate Words(labels: seq<Label>) {
    forall k :: 0 <= k < |labels| ==> Word(labels[k].source) && Word(labels[k].location)
  }

  /** No two identifiers in use coincide, within a domain or across domains. */
  ghost predicate Distinct(ids: Identifiers, labels: seq<Label>) {
    && Injective(ids.source, Sources(labels)) && Injective(ids.device, Sources(labels)) && Injective(ids.location, Locations(labels))
    && (forall a, b :: a in Sources(labels) && b in Sources(labels) ==> ids.source(a) != ids.device(b))
    && (forall a, b :: a in Sources(labels) && b in Locations(labels) ==> ids.source(a) != ids.location(b) && ids.device(a) != ids.location(b))
    && (forall a :: a in Sources(labels) ==> ids.collection != ids.source(a) && ids.collection != ids.device(a))
    && (forall b :: b in Locations(labels) ==> ids.collection != ids.location(b))
  }

  ghost predicate Injective(f: int -> string, domain: set<int>) {
    forall a, b :: a in domain && b in domain && f(a) == f(b) ==> a == b
  }

  /** Every identifier in use is a digest in hexadecimal. */
  ghost predicate Patterned(ids: Identifiers, labels: seq<Label>) {
    forall k :: 0 <= k < |labels| ==> RowSelection.OpaqueGroup(GroupOf(ids, labels[k]))
  }

  function GroupOf(ids: Identifiers, tag: Label): Group {
    Group(ids.collection, ids.source(tag.source), ids.device(tag.source), ids.location(tag.location))
  }

  function SpanOf(ids: Identifiers, run: Run): Span {
    Span(run.start, if run.stop.Some? then run.stop.value else run.start, GroupOf(ids, run.tag))
  }

  function SpansOf(ids: Identifiers, runs: seq<Run>): (spans: seq<Span>)
    ensures |spans| == |runs|
  {
    seq(|runs|, i requires 0 <= i < |runs| => SpanOf(ids, runs[i]))
  }

  function RowsOf(ids: Identifiers, labels: seq<Label>): (rows: seq<Row>)
    ensures |rows| == |labels|
  {
    seq(|labels|, k requires 0 <= k < |labels| => Row(k, GroupOf(ids, labels[k])))
  }

  /** One row for each label, in order: its index and the four identifiers of its group. */
  ghost predicate StandFor(rows: seq<Row>, ids: Identifiers, labels: seq<Label>) {
    && |rows| == |labels|
    && forall k :: 0 <= k < |rows| ==>
         && rows[k].index == k
         && rows[k].group.collection == ids.collection
         && rows[k].group.source == ids.source(labels[k].source)
         && rows[k].group.device == ids.device(labels[k].source)
         && rows[k].group.location == ids.location(labels[k].location)
  }

  lemma SpansTile(ids: Identifiers, runs: seq<Run>, rows: nat)
    requires Tile(runs, rows)
    ensures RowSampling.Tile(SpansOf(ids, runs))
    ensures runs != [] ==> SpansOf(ids, runs)[|runs| - 1].stop == rows
  {
    var spans := SpansOf(ids, runs);
    forall k | 0 < k < |spans| ensures spans[k].start == spans[k - 1].stop {
      assert runs[k - 1].stop == Some(runs[k].start);
    }
  }

  lemma SpanIsSlice(ids: Identifiers, run: Run, labels: seq<Label>)
    requires Covers(run, labels) && run.start <= run.stop.value
    ensures RowSampling.SpanRows(SpanOf(ids, run)) == RowsOf(ids, labels)[run.start..run.stop.value]
  {
  }

  lemma {:induction false} FirstSpansExpand(ids: Identifiers, runs: seq<Run>, labels: seq<Label>, n: nat)
    requires Encodes(runs, labels) && n <= |runs|
    ensures RowSampling.Expand(SpansOf(ids, runs)[..n]) == RowsOf(ids, labels)[..if n == 0 then 0 else runs[n - 1].stop.value]
  {
    if n > 0 {
      var spans, rows, run := SpansOf(ids, runs), RowsOf(ids, labels), runs[n - 1];
      assert spans[n - 1] == SpanOf(ids, run);
      hide SpansOf, SpanOf, RowsOf, Encodes, RowSampling.SpanRows;
      RunInPlace(runs, labels, n);
      FirstSpansExpand(ids, runs, labels, n - 1);
      SpanIsSlice(ids, run, labels);
      assert spans[..n][..n - 1] == spans[..n - 1] && spans[..n][n - 1] == SpanOf(ids, run);
      assert rows[..run.start] + rows[run.start..run.stop.value] == rows[..run.stop.value];
    }
  }

  lemma RunInPlace(runs: seq<Run>, labels: seq<Label>, n: nat)
    requires Encodes(runs, labels) && 0 < n <= |runs|
    ensures var run := runs[n - 1];
            && Covers(run, labels) && run.start <= run.stop.value
            && if n == 1 then run.start == 0 else runs[n - 2].stop == Some(run.start)
  {
  }

  /** The spans expand to the rows of the labels. */
  lemma SpansExpandToRows(ids: Identifiers, runs: seq<Run>, labels: seq<Label>)
    requires Encodes(runs, labels)
    ensures RowSampling.Expand(SpansOf(ids, runs)) == RowsOf(ids, labels)
    ensures StandFor(RowsOf(ids, labels), ids, labels)
  {
    FirstSpansExpand(ids, runs, labels, |runs|);
    assert SpansOf(ids, runs)[..|runs|] == SpansOf(ids, runs);
    assert RowsOf(ids, labels)[..|labels|] == RowsOf(ids, labels);
  }

  lemma {:induction false} ImageCount(f: int -> string, domain: set<int>, image: set<string>)
    requires Injective(f, domain)
    requires forall x :: x in image <==> exists a :: a in domain && f(a) == x
    ensures |image| == |domain|
    decreases |domain|
  {
    if |domain| == 0 {
      assert image == {};
    } else {
      var a := Pick(domain);
      assert f(a) in image;
      forall x | x in image - {f(a)} ensures exists b :: b in domain - {a} && f(b) == x {
        var b :| b in domain && f(b) == x;
        assert b in domain - {a};
      }
      ImageCount(f, domain - {a}, image - {f(a)});
    }
  }

  lemma RunOfLabel(runs: seq<Run>, labels: seq<Label>, k: nat) returns (i: nat)
    requires Encodes(runs, labels) && k < |labels|
    ensures i < |runs| && runs[i].tag == labels[k]
  {
    i := 0;
    while runs[i].stop.value <= k
      invariant i < |runs| && runs[i].start <= k
      decreases |runs| - i
    {
      assert i + 1 < |runs|;
      assert runs[i + 1 - 1].stop == Some(runs[i + 1].start);
      i := i + 1;
    }
    assert Covers(runs[i], labels);
  }

  /** The labels of the runs are the labels of the rows. */
  lemma RunLabels(runs: seq<Run>, labels: seq<Label>, tag: Label)
    requires Encodes(runs, labels)
    ensures (exists i :: 0 <= i < |runs| && runs[i].tag == tag) <==> tag in labels
  {
    if tag in labels {
      var k :| 0 <= k < |labels| && labels[k] == tag;
      var i := RunOfLabel(runs, labels, k);
    }
    if i :| 0 <= i < |runs| && runs[i].tag == tag {
      assert Covers(runs[i], labels);
      assert labels[runs[i].start] == tag;
    }
  }

  ghost function GroupsOf(ids: Identifiers, runs: seq<Run>): set<Group> {
    set g | g in RowSampling.SpanGroups(SpansOf(ids, runs))
  }

  lemma GroupsOfLabels(ids: Identifiers, runs: seq<Run>, labels: seq<Label>, g: Group)
    requires Encodes(runs, labels)
    ensures g in GroupsOf(ids, runs) <==> exists tag :: tag in labels && GroupOf(ids, tag) == g
  {
    var spans := SpansOf(ids, runs);
    if g in GroupsOf(ids, runs) {
      var i :| 0 <= i < |spans| && RowSampling.SpanGroups(spans)[i] == g;
      RunLabels(runs, labels, runs[i].tag);
      assert GroupOf(ids, runs[i].tag) == g;
    }
    if tag :| tag in labels && GroupOf(ids, tag) == g {
      RunLabels(runs, labels, tag);
      var i :| 0 <= i < |runs| && runs[i].tag == tag;
      assert RowSampling.SpanGroups(spans)[i] == g;
    }
  }

  lemma IdentitiesAreValid(ids: Identifiers, runs: seq<Run>, labels: seq<Label>)
    requires Encodes(runs, labels) && labels != [] && Distinct(ids, labels)
    requires 10 <= |Locations(labels)| <= 256 && 2 <= |Sources(labels)| <= 32
    ensures RowSelection.ValidIdentities(GroupsOf(ids, runs)) && RowSelection.DomainsDisjoint(GroupsOf(ids, runs))
  {
    var groups := GroupsOf(ids, runs);
    forall g ensures g in groups <==> exists tag :: tag in labels && GroupOf(ids, tag) == g {
      GroupsOfLabels(ids, runs, labels, g);
    }
    assert GroupsOfAll(ids, labels, groups);
    hide GroupsOf, Encodes;
    LabelGroupsAreValid(ids, labels, groups);
    DomainsStayApart(ids, labels, groups);
  }

  ghost predicate GroupsOfAll(ids: Identifiers, labels: seq<Label>, groups: set<Group>) {
    forall g :: g in groups <==> exists tag :: tag in labels && GroupOf(ids, tag) == g
  }

  lemma LabelGroupsAreValid(ids: Identifiers, labels: seq<Label>, groups: set<Group>)
    requires GroupsOfAll(ids, labels, groups)
    requires labels != [] && Distinct(ids, labels)
    requires 10 <= |Locations(labels)| <= 256 && 2 <= |Sources(labels)| <= 32
    ensures RowSelection.ValidIdentities(groups)
  {
    hide GroupsOfAll;
    OneCollection(ids, labels, groups);
    CountsAreKept(ids, labels, groups);
  }

  lemma CountsAreKept(ids: Identifiers, labels: seq<Label>, groups: set<Group>)
    requires GroupsOfAll(ids, labels, groups) && Distinct(ids, labels)
    ensures |set g | g in groups :: g.location| == |Locations(labels)|
    ensures |set g | g in groups :: g.device| == |Sources(labels)|
  {
    hide GroupsOfAll;
    LocationImages(ids, labels, groups);
    DeviceImages(ids, labels, groups);
    hide Injective;
    ImageCount(ids.location, Locations(labels), LocationsOf(groups));
    ImageCount(ids.device, Sources(labels), DevicesOf(groups));
    assert LocationsOf(groups) == (set g | g in groups :: g.location);
    assert DevicesOf(groups) == (set g | g in groups :: g.device);
  }

  lemma OneCollection(ids: Identifiers, labels: seq<Label>, groups: set<Group>)
    requires GroupsOfAll(ids, labels, groups)
    requires labels != [] && Distinct(ids, labels)
    ensures |set g | g in groups :: g.collection| == 1
    ensures forall g, h | g in groups && h in groups :: g.source == h.source <==> g.device == h.device
  {
    assert labels[0] in labels;
    assert GroupOf(ids, labels[0]) in groups;
    assert (set g | g in groups :: g.collection) == {ids.collection};
  }

  ghost function LocationsOf(groups: set<Group>): set<string> {
    set g | g in groups :: g.location
  }

  ghost function DevicesOf(groups: set<Group>): set<string> {
    set g | g in groups :: g.device
  }

  lemma LocationImages(ids: Identifiers, labels: seq<Label>, groups: set<Group>)
    requires GroupsOfAll(ids, labels, groups)
    ensures forall x :: x in LocationsOf(groups) <==> exists a :: a in Locations(labels) && ids.location(a) == x
  {
    forall x ensures x in LocationsOf(groups) <==> exists a :: a in Locations(labels) && ids.location(a) == x {
      if g :| g in groups && g.location == x {
        var tag :| tag in labels && GroupOf(ids, tag) == g;
        assert tag.location in Locations(labels);
      }
      if a :| a in Locations(labels) && ids.location(a) == x {
        var k :| 0 <= k < |labels| && labels[k].location == a;
        assert labels[k] in labels && GroupOf(ids, labels[k]) in groups;
      }
    }
  }

  lemma DeviceImages(ids: Identifiers, labels: seq<Label>, groups: set<Group>)
    requires GroupsOfAll(ids, labels, groups)
    ensures forall x :: x in DevicesOf(groups) <==> exists a :: a in Sources(labels) && ids.device(a) == x
  {
    forall x ensures x in DevicesOf(groups) <==> exists a :: a in Sources(labels) && ids.device(a) == x {
      if g :| g in groups && g.device == x {
        var tag :| tag in labels && GroupOf(ids, tag) == g;
        assert tag.source in Sources(labels);
      }
      if a :| a in Sources(labels) && ids.device(a) == x {
        var k :| 0 <= k < |labels| && labels[k].source == a;
        assert labels[k] in labels && GroupOf(ids, labels[k]) in groups;
      }
    }
  }

  /** A label of a run is a label of some row. */
  lemma RunCarriesLabel(runs: seq<Run>, labels: seq<Label>, i: nat) returns (k: nat)
    requires Encodes(runs, labels) && i < |runs|
    ensures k < |labels| && labels[k] == runs[i].tag
    ensures runs[i].tag.source in Sources(labels) && runs[i].tag.location in Locations(labels)
  {
    assert Covers(runs[i], labels);
    k := runs[i].start;
  }

  /** No two neighbouring spans are of the same group. */
  lemma NeighboursStayApart(ids: Identifiers, runs: seq<Run>, labels: seq<Label>)
    requires Encodes(runs, labels) && Distinct(ids, labels)
    ensures RowSelection.NeighboursDiffer(SpansOf(ids, runs))
  {
    var spans := SpansOf(ids, runs);
    forall k | 0 < k < |spans| ensures spans[k - 1].group != spans[k].group {
      assert runs[k - 1].tag != runs[k].tag;
      var i := RunCarriesLabel(runs, labels, k - 1);
      var j := RunCarriesLabel(runs, labels, k);
      DifferentLabels(ids, labels, runs[k - 1].tag, runs[k].tag);
    }
  }

  lemma DifferentLabels(ids: Identifiers, labels: seq<Label>, x: Label, y: Label)
    requires Distinct(ids, labels) && x != y
    requires x.source in Sources(labels) && y.source in Sources(labels)
    requires x.location in Locations(labels) && y.location in Locations(labels)
    ensures GroupOf(ids, x) != GroupOf(ids, y)
  {
  }

  lemma SpansArePatterned(ids: Identifiers, runs: seq<Run>, labels: seq<Label>)
    requires Encodes(runs, labels) && Patterned(ids, labels)
    ensures forall k :: 0 <= k < |runs| ==> RowSelection.OpaqueGroup(SpansOf(ids, runs)[k].group)
  {
    forall k | 0 <= k < |runs| ensures RowSelection.OpaqueGroup(SpansOf(ids, runs)[k].group) {
      var i := RunCarriesLabel(runs, labels, k);
      assert RowSelection.OpaqueGroup(GroupOf(ids, labels[i]));
    }
  }

  lemma DomainsStayApart(ids: Identifiers, labels: seq<Label>, groups: set<Group>)
    requires GroupsOfAll(ids, labels, groups) && Distinct(ids, labels)
    ensures RowSelection.DomainsDisjoint(groups)
  {
    forall g, h | g in groups && h in groups
      ensures g.collection != h.source && g.collection != h.device && g.collection != h.location
      ensures g.source != h.device && g.source != h.location && g.device != h.location
    {
      var x :| x in labels && GroupOf(ids, x) == g;
      var y :| y in labels && GroupOf(ids, y) == h;
      assert x.source in Sources(labels) && y.source in Sources(labels) && y.location in Locations(labels);
    }
  }

  /**
   * The reader accepts the spans of every encoding whose labels are as many
   * as it allows, provided the identifiers in use are digests and none of
   * them coincide.
   */
  lemma ReaderAccepts(ids: Identifiers, labels: seq<Label>)
    requires Encode(labels).Success? && Distinct(ids, labels) && Patterned(ids, labels)
    requires 0 < |labels| <= 1_500_000
    requires |Locations(labels)| >= 10 && |Sources(labels)| >= 2
    ensures var s := Encode(labels).value;
            var spans := SpansOf(ids, Close(s.runs, s.rows));
            RowSelection.ValidAdapter(spans) && StandFor(RowSampling.Expand(spans), ids, labels)
  {
    EncodeIsSound(labels);
    EncodesWithinLimits(labels);
    var s := Encode(labels).value;
    RunsMakeAdapter(ids, Close(s.runs, s.rows), labels);
    SpansExpandToRows(ids, Close(s.runs, s.rows), labels);
  }

  lemma RunsMakeAdapter(ids: Identifiers, runs: seq<Run>, labels: seq<Label>)
    requires Encodes(runs, labels) && Distinct(ids, labels) && Patterned(ids, labels)
    requires 0 < |labels| <= 1_500_000 && |runs| <= 100_000
    requires 10 <= |Locations(labels)| <= 256 && 2 <= |Sources(labels)| <= 32
    ensures RowSelection.ValidAdapter(SpansOf(ids, runs)) && RowSampling.Expand(SpansOf(ids, runs)) == RowsOf(ids, labels)
  {
    hide Distinct, Patterned, SpansOf, RowsOf, RowSelection.NeighboursDiffer, RowSelection.OpaqueGroup, Encodes, Tile,
         RowSelection.DomainsDisjoint, RowSelection.ValidIdentities, Sources, Locations, RowSampling.Tile, RowSampling.Expand,
         RowSampling.SpanGroups, GroupsOf, NeighboursDiffer, Expands;
    SpansExpandToRows(ids, runs, labels);
    SpansInOrder(ids, runs, labels);
    SpansArePatterned(ids, runs, labels);
    IdentitiesAreValid(ids, runs, labels);
    SameGroupSet(ids, runs);
  }

  lemma SpansInOrder(ids: Identifiers, runs: seq<Run>, labels: seq<Label>)
    requires Encodes(runs, labels) && Distinct(ids, labels) && labels != []
    ensures var spans := SpansOf(ids, runs);
            spans != [] && RowSampling.Tile(spans) && RowSelection.NeighboursDiffer(spans) && spans[|spans| - 1].stop == |labels|
  {
    SpansTile(ids, runs, |labels|);
    NeighboursStayApart(ids, runs, labels);
  }

  lemma SameGroupSet(ids: Identifiers, runs: seq<Run>)
    ensures GroupsOf(ids, runs) == set g | g in RowSampling.SpanGroups(SpansOf(ids, runs))
  {
  }

  // ---- Where the identifiers come from -------------------------------------------------------------

  lemma {:induction false} LabelsAreWords(b: seq<Byte>, k: nat)
    requires k < |Labels(b)|
    ensures Labels(b)[k].source < 0x8000_0000_0000_0000 && Labels(b)[k].location < 0x8000_0000_0000_0000
    decreases |b|
  {
    if k == 0 {
      Signed64Range(b[..16][..8]);
      Signed64Range(b[..16][8..]);
    } else {
      LabelsAreWords(b[16..], k - 1);
    }
  }

  /** The labels the encoder accepts from a payload are words. */
  lemma EncodedLabelsAreWords(b: seq<Byte>)
    requires Encode(Labels(b)).Success?
    ensures Words(Labels(b))
  {
    EncodesWithinLimits(Labels(b));
    forall k | 0 <= k < |Labels(b)| ensures Word(Labels(b)[k].source) && Word(Labels(b)[k].location) {
      LabelsAreWords(b, k);
    }
  }

  function Ascii(s: string): (b: seq<Byte>)
    ensures |b| == |s|
  {
    seq(|s|, i requires 0 <= i < |s| => s[i] as int % 256)
  }

  function RowAdapterFraming(): Framing {
    Framing(Ascii("netbraid.ruff-uwb-row-adapter-id.v0"), true)
  }

  /** The bytes hashed for an identifier. */
  function FrameOf(domain: string, components: seq<Component>): seq<Byte> {
    var framed := Frame(RowAdapterFraming(), Ascii(domain), components);
    if framed.Success? then framed.value else []
  }

  function CollectionFrame(token: seq<Byte>): seq<Byte> {
    FrameOf("distance_collection", [Text(token)])
  }

  function SourceFrame(n: int): seq<Byte> {
    FrameOf("physical_source", [Number(n)])
  }

  function DeviceFrame(n: int): seq<Byte> {
    FrameOf("physical_device", [Number(n)])
  }

  function LocationFrame(token: seq<Byte>, n: int): seq<Byte> {
    FrameOf("location", [Text(token), Number(n)])
  }

  function IdentifiersOf(hash: seq<Byte> -> string, token: seq<Byte>): Identifiers {
    Identifiers(hash(CollectionFrame(token)), (n: int) => hash(SourceFrame(n)), (n: int) => hash(DeviceFrame(n)),
                (n: int) => hash(LocationFrame(token, n)))
  }

  /** The byte strings that are hashed for one adapter: finitely many. */
  ghost function FramesInUse(token: seq<Byte>, labels: seq<Label>): set<seq<Byte>> {
    {CollectionFrame(token)} + (set a | a in Sources(labels) :: SourceFrame(a)) + (set a | a in Sources(labels) :: DeviceFrame(a))
    + (set b | b in Locations(labels) :: LocationFrame(token, b))
  }

  /** The digests of these byte strings are well formed and no two of them collide. */
  ghost predicate TellsApart(hash: seq<Byte> -> string, frames: set<seq<Byte>>) {
    && (forall x :: x in frames ==> IsDigest(hash(x)))
    && (forall x, y :: x in frames && y in frames && hash(x) == hash(y) ==> x == y)
  }

  predicate Framable(c: Component) {
    (c.Number? && Word(c.number)) || (c.Text? && |c.bytes| < 0x8000_0000)
  }

  lemma {:induction false} ComponentsFrame(cs: seq<Component>)
    requires forall c :: c in cs ==> Framable(c)
    ensures FrameComponents(RowAdapterFraming(), cs).Success?
    decreases |cs|
  {
    if cs != [] {
      LimitValues();
      assert Framable(cs[0]);
      ComponentsFrame(cs[1..]);
    }
  }

  /** From `at` on the bytes spell the text. */
  ghost predicate Stretch(b: seq<Byte>, at: nat, text: string) {
    at + |text| <= |b| && forall i :: 0 <= i < |text| ==> b[at + i] as int == text[i] as int
  }

  /** The bytes hashed by the compiler of row adapters: its namespace, a domain, components. */
  ghost predicate Spelled(b: seq<Byte>, domain: string, cs: seq<Component>) {
    && 43 + |domain| <= |b|
    && SpellsShort(b[..4], 35) && Stretch(b, 4, "netbraid.ruff-uwb-row-adapter-id.v0")
    && SpellsShort(b[39..43], |domain|) && Stretch(b, 43, domain)
    && Laid(b[43 + |domain|..], cs)
  }

  ghost predicate PlainText(s: string) {
    |s| < 0x8000_0000 && forall i :: 0 <= i < |s| ==> s[i] < 128 as char
  }

  lemma FrameIsSpelled(domain: string, cs: seq<Component>)
    requires PlainText(domain) && forall c :: c in cs ==> Framable(c)
    ensures Spelled(FrameOf(domain, cs), domain, cs)
  {
    var f, d := RowAdapterFraming(), Ascii(domain);
    LimitValues();
    ComponentsFrame(cs);
    assert |f.namespace| == 35;
    hide FrameComponents, Laid, SpellsShort;
    FrameIsLaid(f, d, cs);
    var b := FrameOf(domain, cs);
    assert b[4..39] == Ascii("netbraid.ruff-uwb-row-adapter-id.v0") && b[43..43 + |domain|] == d;
    AsciiStretch(b, 4, "netbraid.ruff-uwb-row-adapter-id.v0");
    AsciiStretch(b, 43, domain);
  }

  lemma AsciiStretch(b: seq<Byte>, at: nat, text: string)
    requires at + |text| <= |b| && b[at..at + |text|] == Ascii(text) && forall i :: 0 <= i < |text| ==> text[i] < 128 as char
    ensures Stretch(b, at, text)
  {
    forall i | 0 <= i < |text| ensures b[at + i] as int == text[i] as int {
      assert b[at..at + |text|][i] == b[at + i];
    }
  }

  /** What is hashed for each identifier of an adapter. */
  lemma IdentifiersAreSpelled(hash: seq<Byte> -> string, token: seq<Byte>, n: int)
    requires |token| < 0x8000_0000 && 0 <= n < 0x8000_0000_0000_0000
    ensures var ids := IdentifiersOf(hash, token);
            && (exists b :: Spelled(b, "distance_collection", [Text(token)]) && ids.collection == hash(b))
            && (exists b :: Spelled(b, "physical_source", [Number(n)]) && ids.source(n) == hash(b))
            && (exists b :: Spelled(b, "physical_device", [Number(n)]) && ids.device(n) == hash(b))
            && (exists b :: Spelled(b, "location", [Text(token), Number(n)]) && ids.location(n) == hash(b))
  {
    hide Spelled, FrameOf;
    var ids := IdentifiersOf(hash, token);
    assert ids.collection == hash(CollectionFrame(token)) && ids.source(n) == hash(SourceFrame(n));
    assert ids.device(n) == hash(DeviceFrame(n)) && ids.location(n) == hash(LocationFrame(token, n));
    FrameIsSpelled("distance_collection", [Text(token)]);
    FrameIsSpelled("physical_source", [Number(n)]);
    FrameIsSpelled("physical_device", [Number(n)]);
    FrameIsSpelled("location", [Text(token), Number(n)]);
  }

  /** Equal frames come from the same domain and the same components. */
  lemma FramesTell(d: string, e: string, a: seq<Component>, b: seq<Component>)
    requires |d| < 256 && |e| < 256
    requires (forall c :: c in a ==> Framable(c)) && (forall c :: c in b ==> Framable(c))
    ensures FrameOf(d, a) == FrameOf(e, b) ==> Ascii(d) == Ascii(e) && PlainAll(a) == PlainAll(b)
  {
    var f := RowAdapterFraming();
    LimitValues();
    ComponentsFrame(a);
    ComponentsFrame(b);
    assert |f.namespace| < 256;
    hide FrameComponents;
    if FrameOf(d, a) == FrameOf(e, b) {
      FrameIsReadable(f, f, Ascii(d), Ascii(e), a, b);
    }
  }

  lemma DomainsDiffer()
    ensures Ascii("physical_source") != Ascii("physical_device")
    ensures Ascii("location") != Ascii("physical_source") && Ascii("location") != Ascii("physical_device")
    ensures Ascii("distance_collection") != Ascii("physical_source") && Ascii("distance_collection") != Ascii("physical_device")
    ensures Ascii("distance_collection") != Ascii("location")
  {
    assert Ascii("physical_source")[9] == 's' as int && Ascii("physical_device")[9] == 'd' as int;
    assert |Ascii("location")| == 8 && |Ascii("physical_source")| == 15 && |Ascii("distance_collection")| == 19;
  }

  lemma OneNumber(a: int, b: int)
    ensures PlainAll([Number(a)]) == PlainAll([Number(b)]) ==> a == b
  {
    assert PlainAll([Number(a)])[0] == Number(a) && PlainAll([Number(b)])[0] == Number(b);
  }

  lemma LocationNumber(token: seq<Byte>, a: int, b: int)
    ensures PlainAll([Text(token), Number(a)]) == PlainAll([Text(token), Number(b)]) ==> a == b
  {
    assert [Text(token), Number(a)][1..] == [Number(a)] && [Text(token), Number(b)][1..] == [Number(b)];
    assert PlainAll([Text(token), Number(a)])[1..] == PlainAll([Number(a)]);
    assert PlainAll([Text(token), Number(b)])[1..] == PlainAll([Number(b)]);
    OneNumber(a, b);
  }

  /** The frames of different identifiers differ. */
  lemma FramesDiffer(token: seq<Byte>, a: int, b: int)
    requires |token| < 0x8000_0000 && Word(a) && Word(b)
    ensures SourceFrame(a) == SourceFrame(b) ==> a == b
    ensures DeviceFrame(a) == DeviceFrame(b) ==> a == b
    ensures LocationFrame(token, a) == LocationFrame(token, b) ==> a == b
    ensures SourceFrame(a) != DeviceFrame(b) && SourceFrame(a) != LocationFrame(token, b) && DeviceFrame(a) != LocationFrame(token, b)
    ensures CollectionFrame(token) != SourceFrame(a) && CollectionFrame(token) != DeviceFrame(a) && CollectionFrame(token) != LocationFrame(token, a)
  {
    DomainsDiffer();
    hide FrameOf, Ascii;
    FramesTell("physical_source", "physical_source", [Number(a)], [Number(b)]);
    FramesTell("physical_device", "physical_device", [Number(a)], [Number(b)]);
    FramesTell("location", "location", [Text(token), Number(a)], [Text(token), Number(b)]);
    OneNumber(a, b);
    LocationNumber(token, a, b);
    FramesTell("physical_source", "physical_device", [Number(a)], [Number(b)]);
    FramesTell("physical_source", "location", [Number(a)], [Text(token), Number(b)]);
    FramesTell("physical_device", "location", [Number(a)], [Text(token), Number(b)]);
    FramesTell("distance_collection", "physical_source", [Text(token)], [Number(a)]);
    FramesTell("distance_collection", "physical_device", [Text(token)], [Number(a)]);
    FramesTell("distance_collection", "location", [Text(token)], [Text(token), Number(a)]);
  }

  lemma ValuesAreWords(labels: seq<Label>, a: int)
    requires Words(labels) && (a in Sources(labels) || a in Locations(labels))
    ensures Word(a)
  {
    if a in Sources(labels) {
      var k :| 0 <= k < |labels| && labels[k].source == a;
    } else {
      var k :| 0 <= k < |labels| && labels[k].location == a;
    }
  }

  /** Unless digests in use collide, no two identifiers of the adapter do. */
  lemma IdentifiersAreDistinct(hash: seq<Byte> -> string, token: seq<Byte>, labels: seq<Label>)
    requires Words(labels) && |token| < 0x8000_0000 && TellsApart(hash, FramesInUse(token, labels))
    ensures Distinct(IdentifiersOf(hash, token), labels) && Patterned(IdentifiersOf(hash, token), labels)
  {
    var ids := IdentifiersOf(hash, token);
    hide CollectionFrame, SourceFrame, DeviceFrame, LocationFrame, IsDigest;
    forall a, b | a in Sources(labels) && b in Sources(labels)
      ensures ids.source(a) == ids.source(b) ==> a == b
      ensures ids.device(a) == ids.device(b) ==> a == b
      ensures ids.source(a) != ids.device(b)
    {
      UsedPair(hash, token, labels, a, b);
    }
    forall a, b | a in Sources(labels) && b in Locations(labels)
      ensures ids.source(a) != ids.location(b) && ids.device(a) != ids.location(b)
    {
      UsedPair(hash, token, labels, a, b);
    }
    forall a, b | a in Locations(labels) && b in Locations(labels)
      ensures ids.location(a) == ids.location(b) ==> a == b
    {
      UsedPair(hash, token, labels, a, b);
    }
    forall a | a in Sources(labels) ensures ids.collection != ids.source(a) && ids.collection != ids.device(a) {
      UsedPair(hash, token, labels, a, a);
    }
    forall b | b in Locations(labels) ensures ids.collection != ids.location(b) {
      UsedPair(hash, token, labels, b, b);
    }
    forall k | 0 <= k < |labels| ensures RowSelection.OpaqueGroup(GroupOf(ids, labels[k])) {
      assert labels[k].source in Sources(labels) && labels[k].location in Locations(labels);
    }
  }

  lemma UsedPair(hash: seq<Byte> -> string, token: seq<Byte>, labels: seq<Label>, a: int, b: int)
    requires Words(labels) && |token| < 0x8000_0000 && TellsApart(hash, FramesInUse(token, labels))
    requires a in Sources(labels) || a in Locations(labels)
    requires b in Sources(labels) || b in Locations(labels)
    ensures var ids := IdentifiersOf(hash, token);
            && (a in Sources(labels) && b in Sources(labels) ==>
                  (ids.source(a) == ids.source(b) ==> a == b) && (ids.device(a) == ids.device(b) ==> a == b) && ids.source(a) != ids.device(b))
            && (a in Sources(labels) && b in Locations(labels) ==> ids.source(a) != ids.location(b) && ids.device(a) != ids.location(b))
            && (a in Locations(labels) && b in Locations(labels) ==> (ids.location(a) == ids.location(b) ==> a == b))
            && (a in Sources(labels) ==> ids.collection != ids.source(a) && ids.collection != ids.device(a))
            && (a in Locations(labels) ==> ids.collection != ids.location(a))
  {
    ValuesAreWords(labels, a);
    ValuesAreWords(labels, b);
    FramesDiffer(token, a, b);
    hide CollectionFrame, SourceFrame, DeviceFrame, LocationFrame, IsDigest, Sources, Locations;
  }

  /**
   * From the bytes of the payload to the reader: unless two of the digests in
   * use collide, the reader accepts what the encoder makes of any payload with
   * enough sources and locations, and its spans stand for the labels row by row.
   */
  lemma PayloadMeetsReader(payload: seq<Byte>, hash: seq<Byte> -> string, token: seq<Byte>)
    requires |token| < 0x8000_0000 && TellsApart(hash, FramesInUse(token, Labels(payload)))
    requires var labels := Labels(payload);
             && Encode(labels).Success? && 0 < |labels| <= 1_500_000
             && |Locations(labels)| >= 10 && |Sources(labels)| >= 2
    ensures var s := Encode(Labels(payload)).value;
            var ids := IdentifiersOf(hash, token);
            var spans := SpansOf(ids, Close(s.runs, s.rows));
            RowSelection.ValidAdapter(spans) && StandFor(RowSampling.Expand(spans), ids, Labels(payload))
  {
    hide FramesInUse, IdentifiersOf, TellsApart, Distinct, Patterned;
    EncodedLabelsAreWords(payload);
    IdentifiersAreDistinct(hash, token, Labels(payload));
    ReaderAccepts(IdentifiersOf(hash, token), Labels(payload));
  }
}
