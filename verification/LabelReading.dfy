/** The loops that read the label payload in pieces: the run-length encoder and the counter. */
module LabelReading {
  import opened Wrappers
  import opened Bytes
  import opened Sets
  import opened LabelRuns

  // ---- Pieces ----------------------------------------------------------------------------

  /** What successive reads have returned so far. */
  function Joined(pieces: seq<seq<Byte>>): seq<Byte> {
    if pieces == [] then [] else Joined(pieces[..|pieces| - 1]) + pieces[|pieces| - 1]
  }

  /** Reads return something until they meet the end, and never more than was asked for. */
  ghost predicate Readable(pieces: seq<seq<Byte>>, size: nat) {
    && (forall i :: 0 <= i < |pieces| ==> pieces[i] != [])
    && |Joined(pieces)| <= size
  }

  lemma JoinedOneMore(pieces: seq<seq<Byte>>, i: nat)
    requires i < |pieces|
    ensures Joined(pieces[..i + 1]) == Joined(pieces[..i]) + pieces[i]
  {
    assert pieces[..i + 1][..i] == pieces[..i];
  }

  lemma {:induction false} JoinedRest(pieces: seq<seq<Byte>>, i: nat) returns (rest: seq<Byte>)
    requires i <= |pieces|
    ensures Joined(pieces) == Joined(pieces[..i]) + rest
    ensures rest == [] ==> forall k :: i <= k < |pieces| ==> pieces[k] == []
    decreases |pieces| - i
  {
    if i == |pieces| {
      rest := [];
      assert pieces[..i] == pieces;
    } else {
      var more := JoinedRest(pieces, i + 1);
      JoinedOneMore(pieces, i);
      rest := pieces[i] + more;
      assert Joined(pieces[..i]) + pieces[i] + more == Joined(pieces[..i]) + rest;
    }
  }

  /** The bytes after the last whole row. */
  function Tail(b: seq<Byte>): seq<Byte> {
    b[|b| - |b| % 16..]
  }

  lemma Aligned(n: nat)
    ensures (n - n % 16) % 16 == 0 && (n - n % 16) / 16 == n / 16
  {
  }

  lemma LabelsOfWhole(b: seq<Byte>)
    ensures Labels(b) == Labels(b[..|b| - |b| % 16])
  {
    hide Labels;
    var n := |b| - |b| % 16;
    Aligned(|b|);
    assert b == b[..n] + b[n..];
    LabelsOfParts(b[..n], b[n..]);
    LabelsOfRest(b[n..]);
  }

  /** The carry and the next piece hold the next labels. */
  lemma NextLabels(payload: seq<Byte>, piece: seq<Byte>)
    ensures Labels(payload + piece) == Labels(payload) + Labels(Tail(payload) + piece)
    ensures Tail(payload + piece) == Tail(Tail(payload) + piece)
  {
    hide Labels;
    var n := |payload| - |payload| % 16;
    Aligned(|payload|);
    assert payload + piece == payload[..n] + (Tail(payload) + piece);
    LabelsOfParts(payload[..n], Tail(payload) + piece);
    LabelsOfWhole(payload);
  }

  // ---- The adapter's reader -------------------------------------------------------------------

  datatype LabelFacts = LabelFacts(runs: seq<Run>, rows: nat, sources: nat, locations: nat)

  datatype Contract = Contract(header: seq<Byte>, rows: nat, digest: string, sources: nat, locations: nat)

  /** What the reader finds, said of the payload as a whole. */
  function Facts(contract: Contract, size: nat, payload: seq<Byte>, trailing: bool, hash: seq<Byte> -> string): Result<LabelFacts, LabelError> {
    var encoded := Encode(Labels(payload));
    if encoded.Failure? then Failure(encoded.error)
    else if |payload| < size then Failure(TruncatedLabelPayload)
    else if |payload| % 16 != 0 || |Labels(payload)| != contract.rows || trailing then Failure(LabelExtentMismatch)
    else if hash(contract.header + payload) != contract.digest then Failure(LabelMemberDigestMismatch)
    else if |encoded.value.sources| != contract.sources || |encoded.value.locations| != contract.locations then
      Failure(LabelDistinctCountMismatch)
    else
      var s := encoded.value;
      Success(LabelFacts(Close(s.runs, s.rows), s.rows, |s.sources|, |s.locations|))
  }

  /** One more label, and what it means for all that follow. */
  lemma EncodeNext(before: seq<Label>, labels: seq<Label>, j: nat)
    requires j < |labels| && Encode(before + labels[..j]).Success?
    ensures var next := Step(Encode(before + labels[..j]).value, labels[j]);
            && Encode(before + labels[..j + 1]) == next
            && (next.Failure? ==> Encode(before + labels) == next)
  {
    hide Step;
    var now := before + labels[..j];
    EncodeOneMore(now, labels[j]);
    assert before + labels[..j + 1] == now + [labels[j]];
    assert before + labels == now + [labels[j]] + labels[j + 1..];
    if Encode(now + [labels[j]]).Failure? {
      FailureStays(now + [labels[j]], labels[j + 1..]);
    }
  }

  /** Encodes more labels after those that came before. */
  method EncodeMore(s: Progress, ghost before: seq<Label>, labels: seq<Label>) returns (r: Result<Progress, LabelError>)
    requires Encode(before) == Success(s)
    ensures r == Encode(before + labels)
  {
    hide Encode;
    var runs, rows, sources, locations := s.runs, s.rows, s.sources, s.locations;
    var prior: Option<Label> := if runs == [] then None else Some(runs[|runs| - 1].tag);
    assert before + labels[..0] == before;
    for j := 0 to |labels|
      invariant Encode(before + labels[..j]) == Success(Progress(runs, rows, sources, locations))
      invariant prior == if runs == [] then None else Some(runs[|runs| - 1].tag)
    {
      var tag := labels[j];
      EncodeNext(before, labels, j);
      if tag.source < 0 || tag.location < 0 {
        return Failure(LabelValueOutOfRange);
      }
      if Some(tag) != prior {
        if runs != [] {
          runs := Close(runs, rows);
        }
        runs := runs + [Run(rows, None, tag)];
        if |runs| > MAX_SPANS {
          return Failure(RowSpanCountLimit);
        }
        prior := Some(tag);
      }
      sources, locations := sources + {tag.source}, locations + {tag.location};
      if |sources| > MAX_DISTINCT_SOURCES {
        return Failure(SourceCountLimit);
      }
      if |locations| > MAX_DISTINCT_LOCATIONS {
        return Failure(LocationCountLimit);
      }
      rows := rows + 1;
    }
    assert labels[..|labels|] == labels;
    r := Success(Progress(runs, rows, sources, locations));
  }

  /** The labels read, or why not all could be. */
  function ReadAll(size: nat, payload: seq<Byte>): Result<Progress, LabelError> {
    var encoded := Encode(Labels(payload));
    if encoded.Failure? then encoded else if |payload| < size then Failure(TruncatedLabelPayload) else encoded
  }

  method ReadPieces(size: nat, pieces: seq<seq<Byte>>, header: seq<Byte>)
    returns (r: Result<Progress, LabelError>, carry: seq<Byte>, digested: seq<Byte>)
    requires Readable(pieces, size)
    ensures r == ReadAll(size, Joined(pieces))
    ensures r.Success? ==> carry == Tail(Joined(pieces)) && digested == header + Joined(pieces)
  {
    hide Encode, Labels, Joined, Step, Tail;
    var s, remaining, i := START, size, 0;
    carry, digested := [], header;
    ghost var payload: seq<Byte> := [];
    StartReading(pieces);
    while remaining > 0
      invariant 0 <= i <= |pieces|
      invariant payload == Joined(pieces[..i]) && remaining == size - |payload|
      invariant carry == Tail(payload) && digested == header + payload
      invariant Encode(Labels(payload)) == Success(s)
      decreases |pieces| - i
    {
      if i == |pieces| {
        assert pieces[..i] == pieces;
        return Failure(TruncatedLabelPayload), carry, digested;
      }
      var next;
      next, carry := ReadPiece(s, payload, carry, pieces[i]);
      assert digested + pieces[i] == header + (payload + pieces[i]);
      remaining, digested := remaining - |pieces[i]|, digested + pieces[i];
      JoinedOneMore(pieces, i);
      payload := payload + pieces[i];
      i := i + 1;
      PiecesToCome(pieces, i);
      if next.Failure? {
        return next, carry, digested;
      }
      s := next.value;
    }
    NothingLeft(pieces, size, i);
    r := Success(s);
  }

  method ReadPiece(s: Progress, ghost payload: seq<Byte>, carry: seq<Byte>, piece: seq<Byte>)
    returns (r: Result<Progress, LabelError>, left: seq<Byte>)
    requires Encode(Labels(payload)) == Success(s) && carry == Tail(payload)
    ensures r == Encode(Labels(payload + piece)) && left == Tail(payload + piece)
  {
    hide Encode, Labels;
    var chunk := carry + piece;
    var usable := |chunk| - |chunk| % 16;
    NextLabels(payload, piece);
    LabelsOfWhole(chunk);
    r := EncodeMore(s, Labels(payload), Labels(chunk[..usable]));
    left := chunk[usable..];
  }

  /** However the payload is cut, the result is that of the payload as a whole. */
  method ReadLabels(contract: Contract, size: nat, pieces: seq<seq<Byte>>, trailing: bool, hash: seq<Byte> -> string)
    returns (r: Result<LabelFacts, LabelError>)
    requires Readable(pieces, size)
    ensures r == Facts(contract, size, Joined(pieces), trailing, hash)
  {
    hide Encode, Labels, Joined;
    var read, carry, digested := ReadPieces(size, pieces, contract.header);
    if read.Failure? {
      return Failure(read.error);
    }
    var s := read.value;
    EncodeIsSound(Labels(Joined(pieces)));
    if carry != [] || s.rows != contract.rows || trailing {
      return Failure(LabelExtentMismatch);
    }
    var runs := Close(s.runs, s.rows);
    if hash(digested) != contract.digest {
      return Failure(LabelMemberDigestMismatch);
    }
    if |s.sources| != contract.sources || |s.locations| != contract.locations {
      return Failure(LabelDistinctCountMismatch);
    }
    r := Success(LabelFacts(runs, s.rows, |s.sources|, |s.locations|));
  }

  lemma StartReading(pieces: seq<seq<Byte>>)
    ensures Joined(pieces[..0]) == [] && Tail([]) == [] && Encode(Labels([])) == Success(START)
  {
    assert pieces[..0] == [];
  }

  /** A failure so far is the failure of the whole. */
  lemma PiecesToCome(pieces: seq<seq<Byte>>, i: nat)
    requires i <= |pieces|
    ensures Encode(Labels(Joined(pieces[..i]))).Failure? ==> Encode(Labels(Joined(pieces))) == Encode(Labels(Joined(pieces[..i])))
    ensures |Joined(pieces[..i])| <= |Joined(pieces)|
  {
    hide Encode;
    var rest := JoinedRest(pieces, i);
    NextLabels(Joined(pieces[..i]), rest);
    if Encode(Labels(Joined(pieces[..i]))).Failure? {
      FailureStays(Labels(Joined(pieces[..i])), Labels(Tail(Joined(pieces[..i])) + rest));
    }
  }

  lemma NothingLeft(pieces: seq<seq<Byte>>, size: nat, i: nat)
    requires Readable(pieces, size) && i <= |pieces| && |Joined(pieces[..i])| >= size
    ensures Joined(pieces) == Joined(pieces[..i]) && |Joined(pieces)| == size
  {
    var rest := JoinedRest(pieces, i);
    assert |rest| == 0;
    assert Joined(pieces[..i]) + rest == Joined(pieces[..i]);
  }
}
