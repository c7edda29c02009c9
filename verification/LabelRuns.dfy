/**
 * Run-length coding of the label payload, read in pieces of any size, and the
 * separate counting of the same payload.
 */
module LabelRuns {
  import opened Wrappers
  import opened Bytes
  import opened Sets

  const MAX_SPANS := 100_000
  const MAX_DISTINCT_SOURCES := 32
  const MAX_DISTINCT_LOCATIONS := 256
  const MAX_LABEL_VALUE := 0x7FFF_FFFF
  const MAX_OBSERVATIONS_PER_RECORD := 100_000

  datatype LabelError =
    | LabelValueOutOfRange
    | RowSpanCountLimit
    | RecordObservationCountLimit
    | SourceCountLimit
    | LocationCountLimit
    | TruncatedLabelPayload
    | LabelExtentMismatch
    | LabelMemberDigestMismatch
    | LabelDistinctCountMismatch

  datatype Label = Label(source: int, location: int)

  /** A run of equal labels; the last one has no end while rows are still being read. */
  datatype Run = Run(start: nat, stop: Option<nat>, tag: Label)

  // ---- Labels in a payload -----------------------------------------------------------

  function LabelAt(b: seq<Byte>): Label
    requires |b| == 16
  {
    Label(Signed64(b[..8]), Signed64(b[8..]))
  }

  /** The labels of the whole rows of a payload. */
  function Labels(b: seq<Byte>): (labels: seq<Label>)
    ensures |labels| == |b| / 16
    decreases |b|
  {
    if |b| < 16 then [] else [LabelAt(b[..16])] + Labels(b[16..])
  }

  lemma FirstLabel(b: seq<Byte>)
    requires |b| >= 16
    ensures Labels(b) == [LabelAt(b[..16])] + Labels(b[16..])
  {
  }

  lemma NoLabels()
    ensures Labels([]) == []
  {
  }

  lemma {:induction false} LabelsOfParts(a: seq<Byte>, b: seq<Byte>)
    requires |a| % 16 == 0
    ensures Labels(a + b) == Labels(a) + Labels(b)
    decreases |a|
  {
    hide Labels, LabelAt;
    if a == [] {
      NoLabels();
      assert a + b == b;
    } else {
      assert (a + b)[..16] == a[..16] && (a + b)[16..] == a[16..] + b;
      FirstLabel(a + b);
      FirstLabel(a);
      LabelsOfParts(a[16..], b);
      Regroup([LabelAt(a[..16])], Labels(a[16..]), Labels(b));
    }
  }

  lemma Regroup(x: seq<Label>, y: seq<Label>, z: seq<Label>)
    ensures x + (y + z) == (x + y) + z
  {
  }

  lemma LabelsOfRest(b: seq<Byte>)
    requires |b| < 16
    ensures Labels(b) == []
  {
  }

  // ---- The encoder, one label after the other ------------------------------------------

  datatype Progress = Progress(runs: seq<Run>, rows: nat, sources: set<int>, locations: set<int>)

  const START := Progress([], 0, {}, {})

  function Close(runs: seq<Run>, row: nat): seq<Run> {
    if runs == [] then [] else runs[..|runs| - 1] + [runs[|runs| - 1].(stop := Some(row))]
  }

  /** The label either goes on with the last run or closes it and starts another. */
  function Extend(runs: seq<Run>, row: nat, tag: Label): seq<Run> {
    if Starts(runs, tag) then Close(runs, row) + [Run(row, None, tag)] else runs
  }

  predicate Starts(runs: seq<Run>, tag: Label) {
    runs == [] || runs[|runs| - 1].tag != tag
  }

  function Step(s: Progress, tag: Label): Result<Progress, LabelError> {
    if tag.source < 0 || tag.location < 0 then Failure(LabelValueOutOfRange)
    else
      var runs := Extend(s.runs, s.rows, tag);
      var sources, locations := s.sources + {tag.source}, s.locations + {tag.location};
      if Starts(s.runs, tag) && |runs| > MAX_SPANS then Failure(RowSpanCountLimit)
      else if |sources| > MAX_DISTINCT_SOURCES then Failure(SourceCountLimit)
      else if |locations| > MAX_DISTINCT_LOCATIONS then Failure(LocationCountLimit)
      else Success(Progress(runs, s.rows + 1, sources, locations))
  }

  function Encode(labels: seq<Label>): Result<Progress, LabelError> {
    if labels == [] then Success(START)
    else
      var before := Encode(labels[..|labels| - 1]);
      if before.Failure? then before else Step(before.value, labels[|labels| - 1])
  }

  lemma {:induction false} FailureStays(labels: seq<Label>, more: seq<Label>)
    requires Encode(labels).Failure?
    ensures Encode(labels + more) == Encode(labels)
    decreases |more|
  {
    if more == [] {
      assert labels + more == labels;
    } else {
      var last := |more| - 1;
      FailureStays(labels, more[..last]);
      assert (labels + more)[..|labels + more| - 1] == labels + more[..last];
    }
  }

  lemma EncodeOneMore(labels: seq<Label>, tag: Label)
    ensures Encode(labels + [tag]) == if Encode(labels).Failure? then Encode(labels) else Step(Encode(labels).value, tag)
  {
    assert (labels + [tag])[..|labels + [tag]| - 1] == labels;
  }

  // ---- What a run-length encoding is ------------------------------------------------------

  /** The runs tile the first `rows` rows. */
  ghost predicate Tile(runs: seq<Run>, rows: nat) {
    && (runs == [] <==> rows == 0)
    && (forall i :: 0 <= i < |runs| ==> runs[i].stop.Some? && runs[i].start < runs[i].stop.value <= rows)
    && (runs != [] ==> runs[0].start == 0 && runs[|runs| - 1].stop == Some(rows))
    && (forall i :: 0 < i < |runs| ==> runs[i - 1].stop == Some(runs[i].start))
  }

  ghost predicate NeighboursDiffer(runs: seq<Run>) {
    forall i :: 0 < i < |runs| ==> runs[i - 1].tag != runs[i].tag
  }

  /** Each row has the label of its run. */
  ghost predicate Expands(runs: seq<Run>, labels: seq<Label>) {
    forall i :: 0 <= i < |runs| ==> Covers(runs[i], labels)
  }

  ghost predicate Covers(run: Run, labels: seq<Label>) {
    run.stop.Some? && run.stop.value <= |labels| && forall k :: run.start <= k < run.stop.value ==> labels[k] == run.tag
  }

  ghost predicate Encodes(runs: seq<Run>, labels: seq<Label>) {
    Tile(runs, |labels|) && NeighboursDiffer(runs) && Expands(runs, labels)
  }

  ghost function Sources(labels: seq<Label>): set<int> {
    set k | 0 <= k < |labels| :: labels[k].source
  }

  ghost function Locations(labels: seq<Label>): set<int> {
    set k | 0 <= k < |labels| :: labels[k].location
  }

  /** The number of rows that start a new run. */
  ghost function RunStarts(labels: seq<Label>): nat {
    if labels == [] then 0
    else
      var last := |labels| - 1;
      RunStarts(labels[..last]) + if last == 0 || labels[last] != labels[last - 1] then 1 else 0
  }

  ghost predicate InRange(labels: seq<Label>) {
    forall k :: 0 <= k < |labels| ==> labels[k].source >= 0 && labels[k].location >= 0
  }

  lemma InRangeGrows(labels: seq<Label>, tag: Label)
    ensures InRange(labels + [tag]) <==> InRange(labels) && tag.source >= 0 && tag.location >= 0
  {
    var all := labels + [tag];
    assert all[|labels|] == tag;
    assert forall k :: 0 <= k < |labels| ==> all[k] == labels[k];
  }

  /** What the encoder accepts. */
  ghost predicate Encodable(labels: seq<Label>) {
    && InRange(labels)
    && RunStarts(labels) <= 100_000
    && |Sources(labels)| <= 32
    && |Locations(labels)| <= 256
  }

  ghost predicate Sound(s: Progress, labels: seq<Label>) {
    && s.rows == |labels|
    && Encodes(Close(s.runs, s.rows), labels)
    && (s.runs != [] ==> s.runs[|s.runs| - 1].stop == None)
    && |s.runs| == RunStarts(labels)
    && s.sources == Sources(labels) && s.locations == Locations(labels)
  }

  lemma LastLabel(runs: seq<Run>, labels: seq<Label>)
    requires Encodes(runs, labels) && labels != []
    ensures runs[|runs| - 1].tag == labels[|labels| - 1]
  {
  }

  lemma CoversMore(run: Run, labels: seq<Label>, tag: Label)
    requires Covers(run, labels)
    ensures Covers(run, labels + [tag])
  {
  }

  lemma AppendRun(runs: seq<Run>, labels: seq<Label>, tag: Label)
    requires Encodes(runs, labels) && Starts(runs, tag)
    ensures Encodes(runs + [Run(|labels|, Some(|labels| + 1), tag)], labels + [tag])
  {
    var next := runs + [Run(|labels|, Some(|labels| + 1), tag)];
    assert Tile(next, |labels| + 1) && NeighboursDiffer(next);
    hide Tile, NeighboursDiffer;
    forall i | 0 <= i < |next| ensures Covers(next[i], labels + [tag]) {
      if i < |runs| {
        CoversMore(runs[i], labels, tag);
      }
    }
  }

  lemma LengthenRun(runs: seq<Run>, labels: seq<Label>, tag: Label)
    requires Encodes(runs, labels) && !Starts(runs, tag)
    ensures Encodes(Close(runs, |labels| + 1), labels + [tag])
  {
    var next := Close(runs, |labels| + 1);
    assert Tile(next, |labels| + 1) && NeighboursDiffer(next);
    assert Covers(runs[|runs| - 1], labels);
    assert runs[|runs| - 1].stop == Some(|labels|);
    hide Tile, NeighboursDiffer;
    forall i | 0 <= i < |next| ensures Covers(next[i], labels + [tag]) {
      if i < |runs| - 1 {
        CoversMore(runs[i], labels, tag);
      }
    }
  }

  lemma CloseAgain(runs: seq<Run>, row: nat, later: nat)
    ensures Close(Close(runs, row), later) == Close(runs, later)
  {
  }

  lemma CloseNew(runs: seq<Run>, row: nat, tag: Label)
    ensures Close(runs + [Run(row, None, tag)], row + 1) == runs + [Run(row, Some(row + 1), tag)]
  {
  }

  lemma ExtendRuns(runs: seq<Run>, labels: seq<Label>, tag: Label)
    requires Encodes(Close(runs, |labels|), labels)
    ensures Encodes(Close(Extend(runs, |labels|, tag), |labels| + 1), labels + [tag])
  {
    var closed := Close(runs, |labels|);
    assert Starts(closed, tag) == Starts(runs, tag);
    CloseAgain(runs, |labels|, |labels| + 1);
    CloseNew(closed, |labels|, tag);
    hide Encodes, Close, Starts;
    if Starts(runs, tag) {
      AppendRun(closed, labels, tag);
    } else {
      LengthenRun(closed, labels, tag);
    }
  }

  lemma ExtendShape(runs: seq<Run>, row: nat, tag: Label)
    requires runs != [] ==> runs[|runs| - 1].stop == None
    ensures var next := Extend(runs, row, tag);
            && |next| == |runs| + (if Starts(runs, tag) then 1 else 0)
            && next != [] && next[|next| - 1].stop == None
  {
  }

  lemma MembersGrow(labels: seq<Label>, tag: Label)
    ensures Sources(labels + [tag]) == Sources(labels) + {tag.source}
    ensures Locations(labels + [tag]) == Locations(labels) + {tag.location}
  {
    var all := labels + [tag];
    assert all[|labels|] == tag;
    forall x | x in Sources(labels) ensures x in Sources(all) {
      var k :| 0 <= k < |labels| && labels[k].source == x;
      assert all[k] == labels[k];
    }
    forall x | x in Locations(labels) ensures x in Locations(all) {
      var k :| 0 <= k < |labels| && labels[k].location == x;
      assert all[k] == labels[k];
    }
  }

  lemma RunStartsGrow(labels: seq<Label>, tag: Label)
    ensures RunStarts(labels + [tag]) == RunStarts(labels) + if labels == [] || tag != labels[|labels| - 1] then 1 else 0
  {
    assert (labels + [tag])[..|labels + [tag]| - 1] == labels;
  }

  /** The encoder starts a run where the labels do. */
  lemma StartsWithLabels(s: Progress, labels: seq<Label>, tag: Label)
    requires Sound(s, labels)
    ensures Starts(s.runs, tag) <==> (labels == [] || tag != labels[|labels| - 1])
  {
    if labels != [] {
      LastLabel(Close(s.runs, s.rows), labels);
    }
  }

  lemma StepIsSound(s: Progress, labels: seq<Label>, tag: Label)
    requires Sound(s, labels)
    ensures Step(s, tag).Success? ==> Sound(Step(s, tag).value, labels + [tag])
  {
    hide Encodes, Sources, Locations, RunStarts, Extend, Starts, Close;
    MembersGrow(labels, tag);
    ExtendRuns(s.runs, labels, tag);
    StartsWithLabels(s, labels, tag);
    RunStartsGrow(labels, tag);
    ExtendShape(s.runs, s.rows, tag);
  }

  lemma {:induction false} EncodeIsSound(labels: seq<Label>)
    requires Encode(labels).Success?
    ensures Sound(Encode(labels).value, labels)
    decreases |labels|
  {
    hide Sound, Step;
    if labels == [] {
      SoundStart();
    } else {
      var last := |labels| - 1;
      EncodeIsSound(labels[..last]);
      StepIsSound(Encode(labels[..last]).value, labels[..last], labels[last]);
      assert labels == labels[..last] + [labels[last]];
    }
  }

  lemma SoundStart()
    ensures Sound(START, [])
  {
  }

  // ---- When encoding succeeds ------------------------------------------------------------------

  lemma EncodableParts(labels: seq<Label>, tag: Label)
    requires Encodable(labels + [tag])
    ensures Encodable(labels)
  {
    MembersGrow(labels, tag);
    RunStartsGrow(labels, tag);
    SubsetCount(Sources(labels), Sources(labels + [tag]));
    SubsetCount(Locations(labels), Locations(labels + [tag]));
    InRangeGrows(labels, tag);
  }

  lemma StepSucceeds(s: Progress, labels: seq<Label>, tag: Label)
    requires Sound(s, labels) && Encodable(labels)
    ensures Step(s, tag).Success? <==> Encodable(labels + [tag])
  {
    hide Encodes, Sources, Locations, RunStarts, Extend, Starts, Close, InRange;
    MembersGrow(labels, tag);
    RunStartsGrow(labels, tag);
    StartsWithLabels(s, labels, tag);
    ExtendShape(s.runs, s.rows, tag);
    InRangeGrows(labels, tag);
  }

  /** The encoder accepts exactly the labels within its limits. */
  lemma {:induction false} EncodesWithinLimits(labels: seq<Label>)
    ensures Encode(labels).Success? <==> Encodable(labels)
    decreases |labels|
  {
    hide Sound, Step, Encodable;
    if labels == [] {
      NoLabelsEncodable();
    } else {
      var last := |labels| - 1;
      var before := labels[..last];
      assert labels == before + [labels[last]];
      EncodesWithinLimits(before);
      if Encodable(labels) {
        EncodableParts(before, labels[last]);
      }
      if Encode(before).Success? {
        EncodeIsSound(before);
        StepSucceeds(Encode(before).value, before, labels[last]);
      }
    }
  }

  lemma NoLabelsEncodable()
    ensures Encodable([])
  {
  }

  // ---- What the runs say ------------------------------------------------------------------------

  /** There is only one way to encode labels. */
  lemma {:induction false} EncodingIsUnique(a: seq<Run>, b: seq<Run>, labels: seq<Label>, n: nat)
    requires Encodes(a, labels) && Encodes(b, labels) && n <= |a|
    ensures n <= |b| && a[..n] == b[..n]
    ensures n == |a| ==> a == b
  {
    if n > 0 {
      EncodingIsUnique(a, b, labels, n - 1);
      var i := n - 1;
      assert a[..i] == b[..i];
      SameStart(a, b, labels, i);
      SameRun(a, b, labels, i);
      assert a[..n] == a[..i] + [a[i]] && b[..n] == b[..i] + [b[i]];
    }
    if n == |a| && n > 0 {
      assert a[n - 1] == a[..n][n - 1] == b[..n][n - 1] == b[n - 1];
      LastIsLast(b, labels, n - 1);
    }
  }

  lemma LastIsLast(runs: seq<Run>, labels: seq<Label>, i: nat)
    requires Encodes(runs, labels) && i < |runs| && runs[i].stop == Some(|labels|)
    ensures i == |runs| - 1
  {
    assert i + 1 < |runs| ==> runs[i + 1 - 1].stop == Some(runs[i + 1].start);
  }

  /** A run ends at the first row with another label. */
  lemma RunEnds(runs: seq<Run>, labels: seq<Label>, i: nat)
    requires Encodes(runs, labels) && i < |runs|
    ensures var stop := runs[i].stop.value; stop == |labels| || (stop < |labels| && labels[stop] != runs[i].tag)
  {
    var stop := runs[i].stop.value;
    if stop < |labels| {
      assert i + 1 < |runs|;
      assert Covers(runs[i + 1], labels);
      assert runs[i + 1 - 1].tag != runs[i + 1].tag && runs[i + 1 - 1].stop == Some(runs[i + 1].start);
      assert labels[stop] == runs[i + 1].tag;
    }
  }

  lemma SameStart(a: seq<Run>, b: seq<Run>, labels: seq<Label>, i: nat)
    requires Encodes(a, labels) && Encodes(b, labels) && i < |a| && i <= |b|
    requires a[..i] == b[..i]
    ensures i < |b| && a[i].start == b[i].start
  {
    if i > 0 {
      assert a[i - 1] == a[..i][i - 1] == b[..i][i - 1] == b[i - 1];
      assert a[i - 1].stop == Some(a[i].start);
      assert a[i].start < |labels|;
    }
  }

  lemma StopsNoSooner(a: seq<Run>, b: seq<Run>, labels: seq<Label>, i: nat)
    requires Encodes(a, labels) && Encodes(b, labels) && i < |a| && i < |b| && a[i].start == b[i].start
    ensures a[i].tag == b[i].tag && a[i].stop.value >= b[i].stop.value
  {
    assert Covers(a[i], labels) && Covers(b[i], labels);
    assert labels[a[i].start] == a[i].tag;
    RunEnds(a, labels, i);
  }

  lemma SameRun(a: seq<Run>, b: seq<Run>, labels: seq<Label>, i: nat)
    requires Encodes(a, labels) && Encodes(b, labels) && i < |a| && i < |b| && a[i].start == b[i].start
    ensures a[i] == b[i]
  {
    StopsNoSooner(a, b, labels, i);
    StopsNoSooner(b, a, labels, i);
    assert a[i].stop.Some? && b[i].stop.Some?;
  }

  /** The number of rows in the runs of a label. */
  ghost function Lengths(runs: seq<Run>, tag: Label): int {
    if runs == [] then 0
    else
      var last := runs[|runs| - 1];
      Lengths(runs[..|runs| - 1], tag) + if last.tag == tag && last.stop.Some? then last.stop.value - last.start else 0
  }

  lemma {:induction false} UniformCount(labels: seq<Label>, tag: Label)
    requires forall k :: 0 <= k < |labels| ==> labels[k] == tag
    ensures multiset(labels)[tag] == |labels|
    ensures forall other :: other != tag ==> multiset(labels)[other] == 0
    decreases |labels|
  {
    if labels != [] {
      var last := |labels| - 1;
      UniformCount(labels[..last], tag);
      assert labels == labels[..last] + [tag];
    }
  }

  lemma {:induction false} FirstLengths(runs: seq<Run>, labels: seq<Label>, tag: Label, n: nat)
    requires Encodes(runs, labels) && 0 < n <= |runs|
    ensures Lengths(runs[..n], tag) == multiset(labels[..runs[n - 1].stop.value])[tag]
  {
    var run := runs[n - 1];
    var slice := labels[run.start..run.stop.value];
    assert Covers(run, labels);
    UniformCount(slice, run.tag);
    assert labels[..run.stop.value] == labels[..run.start] + slice;
    assert runs[..n][..n - 1] == runs[..n - 1];
    assert runs[..n][n - 1] == run;
    if n > 1 {
      FirstLengths(runs, labels, tag, n - 1);
      assert runs[n - 2].stop == Some(run.start);
    } else {
      assert run.start == 0;
    }
  }

  /** The lengths of the runs of a label add up to the number of rows that carry it. */
  lemma LengthsAreCounts(runs: seq<Run>, labels: seq<Label>, tag: Label)
    requires Encodes(runs, labels)
    ensures Lengths(runs, tag) == multiset(labels)[tag]
  {
    if runs != [] {
      FirstLengths(runs, labels, tag, |runs|);
      assert runs[..|runs|] == runs && labels[..|labels|] == labels;
    }
  }
}
