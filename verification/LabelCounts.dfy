/** The other reading of the label payload: how many rows carry each label. */
module LabelCounts {
  import opened Wrappers
  import opened Bytes
  import opened Sets
  import opened LabelRuns
  import opened LabelReading

  datatype Tally = Tally(combinations: map<Label, nat>, sources: set<int>, locations: set<int>)

  const NONE := Tally(map[], {}, {})

  function CountOf(combinations: map<Label, nat>, tag: Label): nat {
    if tag in combinations then combinations[tag] else 0
  }

  predicate Fits(tag: Label) {
    0 <= tag.source <= MAX_LABEL_VALUE && 0 <= tag.location <= MAX_LABEL_VALUE
  }

  function CountStep(t: Tally, tag: Label): Result<Tally, LabelError> {
    var count := CountOf(t.combinations, tag) + 1;
    var sources, locations := t.sources + {tag.source}, t.locations + {tag.location};
    if !Fits(tag) then Failure(LabelValueOutOfRange)
    else if count > MAX_OBSERVATIONS_PER_RECORD then Failure(RecordObservationCountLimit)
    else if |sources| > MAX_DISTINCT_SOURCES then Failure(SourceCountLimit)
    else if |locations| > MAX_DISTINCT_LOCATIONS then Failure(LocationCountLimit)
    else Success(Tally(t.combinations[tag := count], sources, locations))
  }

  function Count(labels: seq<Label>): Result<Tally, LabelError> {
    if labels == [] then Success(NONE)
    else
      var before := Count(labels[..|labels| - 1]);
      if before.Failure? then before else CountStep(before.value, labels[|labels| - 1])
  }

  // ---- What is counted ----------------------------------------------------------------------

  ghost predicate Counts(t: Tally, labels: seq<Label>) {
    && (forall tag :: CountOf(t.combinations, tag) == multiset(labels)[tag])
    && (forall tag :: tag in t.combinations <==> tag in labels)
    && t.sources == Sources(labels) && t.locations == Locations(labels)
  }

  ghost predicate AllFit(labels: seq<Label>) {
    forall k :: 0 <= k < |labels| ==> 0 <= labels[k].source <= 2_147_483_647 && 0 <= labels[k].location <= 2_147_483_647
  }

  ghost predicate Bounded(counts: multiset<Label>) {
    forall tag :: counts[tag] <= 100_000
  }

  lemma AllFitMore(labels: seq<Label>, tag: Label)
    ensures AllFit(labels + [tag]) <==> AllFit(labels) && Fits(tag)
  {
    var all := labels + [tag];
    assert all[|labels|] == tag && forall k :: 0 <= k < |labels| ==> all[k] == labels[k];
  }

  lemma BoundedMore(labels: seq<Label>, tag: Label)
    ensures Bounded(multiset(labels + [tag])) <==> Bounded(multiset(labels)) && multiset(labels)[tag] < MAX_OBSERVATIONS_PER_RECORD
  {
    var counts := multiset(labels);
    assert multiset(labels + [tag]) == counts[tag := counts[tag] + 1];
    if Bounded(counts[tag := counts[tag] + 1]) {
      forall other ensures counts[other] <= MAX_OBSERVATIONS_PER_RECORD {
        assert counts[other] <= counts[tag := counts[tag] + 1][other];
      }
      assert counts[tag := counts[tag] + 1][tag] == counts[tag] + 1;
    }
  }

  ghost predicate Countable(labels: seq<Label>) {
    && AllFit(labels)
    && Bounded(multiset(labels))
    && |Sources(labels)| <= 32
    && |Locations(labels)| <= 256
  }

  lemma CountsMore(t: Tally, labels: seq<Label>, tag: Label)
    requires Counts(t, labels)
    ensures CountStep(t, tag).Success? ==> Counts(CountStep(t, tag).value, labels + [tag])
  {
    MembersGrow(labels, tag);
    hide Sources, Locations;
    assert multiset(labels + [tag]) == multiset(labels)[tag := multiset(labels)[tag] + 1];
    assert forall other :: other in labels + [tag] <==> other in labels || other == tag;
  }

  lemma CountableMore(t: Tally, labels: seq<Label>, tag: Label)
    requires Counts(t, labels) && Countable(labels)
    ensures CountStep(t, tag).Success? <==> Countable(labels + [tag])
  {
    MembersGrow(labels, tag);
    AllFitMore(labels, tag);
    BoundedMore(labels, tag);
    hide Sources, Locations, AllFit, Bounded, Fits;
    assert CountOf(t.combinations, tag) == multiset(labels)[tag];
  }

  lemma CountableLess(labels: seq<Label>, tag: Label)
    requires Countable(labels + [tag])
    ensures Countable(labels)
  {
    MembersGrow(labels, tag);
    SubsetCount(Sources(labels), Sources(labels + [tag]));
    SubsetCount(Locations(labels), Locations(labels + [tag]));
    AllFitMore(labels, tag);
    BoundedMore(labels, tag);
    hide Sources, Locations, AllFit, Bounded;
  }

  /** The counter accepts exactly the labels within its limits, and counts them all. */
  lemma {:induction false} CountsWithinLimits(labels: seq<Label>)
    ensures Count(labels).Success? <==> Countable(labels)
    ensures Count(labels).Success? ==> Counts(Count(labels).value, labels)
    decreases |labels|
  {
    hide Counts, Countable, CountStep;
    if labels == [] {
      NothingCounted();
    } else {
      var last := |labels| - 1;
      var before := labels[..last];
      assert labels == before + [labels[last]];
      CountsWithinLimits(before);
      if Count(before).Success? {
        CountsMore(Count(before).value, before, labels[last]);
        CountableMore(Count(before).value, before, labels[last]);
      } else if Countable(labels) {
        CountableLess(before, labels[last]);
      }
    }
  }

  lemma NothingCounted()
    ensures Countable([]) && Counts(NONE, [])
  {
    var none: seq<Label> := [];
    assert multiset(none) == multiset{};
  }

  /** Both readings agree: the runs of a label are as long, together, as its count. */
  lemma RunsMeetCounts(labels: seq<Label>, tag: Label)
    requires Encode(labels).Success? && Count(labels).Success?
    ensures var s := Encode(labels).value;
            Lengths(Close(s.runs, s.rows), tag) == CountOf(Count(labels).value.combinations, tag)
  {
    EncodeIsSound(labels);
    CountsWithinLimits(labels);
    LengthsAreCounts(Close(Encode(labels).value.runs, Encode(labels).value.rows), labels, tag);
  }

  // ---- The loops ------------------------------------------------------------------------------

  lemma {:induction false} CountFailureStays(labels: seq<Label>, more: seq<Label>)
    requires Count(labels).Failure?
    ensures Count(labels + more) == Count(labels)
    decreases |more|
  {
    if more == [] {
      assert labels + more == labels;
    } else {
      var last := |more| - 1;
      CountFailureStays(labels, more[..last]);
      assert (labels + more)[..|labels + more| - 1] == labels + more[..last];
    }
  }

  lemma CountNext(before: seq<Label>, labels: seq<Label>, j: nat)
    requires j < |labels| && Count(before + labels[..j]).Success?
    ensures var next := CountStep(Count(before + labels[..j]).value, labels[j]);
            && Count(before + labels[..j + 1]) == next
            && (next.Failure? ==> Count(before + labels) == next)
  {
    hide CountStep;
    var now := before + labels[..j];
    assert (now + [labels[j]])[..|now|] == now;
    assert before + labels[..j + 1] == now + [labels[j]];
    assert before + labels == now + [labels[j]] + labels[j + 1..];
    if Count(now + [labels[j]]).Failure? {
      CountFailureStays(now + [labels[j]], labels[j + 1..]);
    }
  }

  method CountMore(t: Tally, ghost before: seq<Label>, labels: seq<Label>) returns (r: Result<Tally, LabelError>)
    requires Count(before) == Success(t)
    ensures r == Count(before + labels)
  {
    hide Count;
    var combinations: map<Label, nat>, sources, locations := t.combinations, t.sources, t.locations;
    assert before + labels[..0] == before;
    for j := 0 to |labels|
      invariant Count(before + labels[..j]) == Success(Tally(combinations, sources, locations))
    {
      var tag := labels[j];
      CountNext(before, labels, j);
      if !Fits(tag) {
        return Failure(LabelValueOutOfRange);
      }
      combinations := combinations[tag := CountOf(combinations, tag) + 1];
      if combinations[tag] > MAX_OBSERVATIONS_PER_RECORD {
        return Failure(RecordObservationCountLimit);
      }
      sources, locations := sources + {tag.source}, locations + {tag.location};
      if |sources| > MAX_DISTINCT_SOURCES {
        return Failure(SourceCountLimit);
      }
      if |locations| > MAX_DISTINCT_LOCATIONS {
        return Failure(LocationCountLimit);
      }
    }
    assert labels[..|labels|] == labels;
    r := Success(Tally(combinations, sources, locations));
  }

  lemma CountsToCome(pieces: seq<seq<Byte>>, i: nat)
    requires i <= |pieces|
    ensures Count(Labels(Joined(pieces[..i]))).Failure? ==> Count(Labels(Joined(pieces))) == Count(Labels(Joined(pieces[..i])))
  {
    hide Count;
    var rest := JoinedRest(pieces, i);
    NextLabels(Joined(pieces[..i]), rest);
    if Count(Labels(Joined(pieces[..i]))).Failure? {
      CountFailureStays(Labels(Joined(pieces[..i])), Labels(Tail(Joined(pieces[..i])) + rest));
    }
  }

  /** What the counter finds, said of the payload as a whole. */
  function Counted(rows: nat, payload: seq<Byte>, trailing: bool): Result<Tally, LabelError> {
    var counted := Count(Labels(payload));
    if counted.Failure? then counted
    else if |payload| < rows * 16 then Failure(TruncatedLabelPayload)
    else if trailing then Failure(LabelExtentMismatch)
    else counted
  }

  /** However the payload is cut, the counts are those of the payload as a whole. */
  method CountLabels(rows: nat, pieces: seq<seq<Byte>>, trailing: bool) returns (r: Result<Tally, LabelError>)
    requires Readable(pieces, rows * 16)
    ensures r == Counted(rows, Joined(pieces), trailing)
  {
    hide Count, Labels, Joined, CountStep, Tail;
    var size := rows * 16;
    var t, carry, remaining, i, parsed := NONE, [], size, 0, 0;
    ghost var payload: seq<Byte> := [];
    StartCounting(pieces);
    while remaining > 0
      invariant 0 <= i <= |pieces|
      invariant payload == Joined(pieces[..i]) && remaining == size - |payload|
      invariant carry == Tail(payload) && parsed == |Labels(payload)|
      invariant Count(Labels(payload)) == Success(t)
      decreases |pieces| - i
    {
      if i == |pieces| {
        assert pieces[..i] == pieces;
        return Failure(TruncatedLabelPayload);
      }
      var next, count;
      next, carry, count := CountPiece(t, payload, carry, pieces[i]);
      remaining, parsed := remaining - |pieces[i]|, parsed + count;
      JoinedOneMore(pieces, i);
      payload := payload + pieces[i];
      i := i + 1;
      CountsToCome(pieces, i);
      PiecesToCome(pieces, i);
      if next.Failure? {
        return next;
      }
      t := next.value;
    }
    NothingLeft(pieces, size, i);
    WholePayload(payload, rows);
    if carry != [] || parsed != rows || trailing {
      return Failure(LabelExtentMismatch);
    }
    r := Success(t);
  }

  lemma StartCounting(pieces: seq<seq<Byte>>)
    ensures Joined(pieces[..0]) == [] && Tail([]) == [] && Labels([]) == [] && Count(Labels([])) == Success(NONE)
  {
    StartReading(pieces);
    LabelsOfRest([]);
  }

  lemma WholePayload(payload: seq<Byte>, rows: nat)
    requires |payload| == rows * 16
    ensures Tail(payload) == [] && |Labels(payload)| == rows
  {
  }

  method CountPiece(t: Tally, ghost payload: seq<Byte>, carry: seq<Byte>, piece: seq<Byte>)
    returns (r: Result<Tally, LabelError>, left: seq<Byte>, count: nat)
    requires Count(Labels(payload)) == Success(t) && carry == Tail(payload)
    ensures r == Count(Labels(payload + piece)) && left == Tail(payload + piece)
    ensures |Labels(payload + piece)| == |Labels(payload)| + count
  {
    hide Count, Labels;
    var chunk := carry + piece;
    var usable := |chunk| - |chunk| % 16;
    NextLabels(payload, piece);
    LabelsOfWhole(chunk);
    var labels := Labels(chunk[..usable]);
    r := CountMore(t, Labels(payload), labels);
    left := chunk[usable..];
    count := |labels|;
  }
}
