/**
 * What the bytes of a label payload say: eight bytes of source and eight of
 * location for each row, least significant first, in two's complement.
 */
module LabelBytes {
  import opened Wrappers
  import opened Bytes
  import opened LabelRuns
  import opened LabelReading
  import opened LabelCounts

  /** The eight bytes from `at` on stand for `v`. */
  ghost predicate Spells(b: seq<Byte>, at: nat, v: int)
    requires at + 8 <= |b|
  {
    b[at] as int + 256 * b[at + 1] as int + 65_536 * b[at + 2] as int + 16_777_216 * b[at + 3] as int
      + 4_294_967_296 * b[at + 4] as int + 1_099_511_627_776 * b[at + 5] as int
      + 281_474_976_710_656 * b[at + 6] as int + 72_057_594_037_927_936 * b[at + 7] as int
    == if v >= 0 then v else v + 18_446_744_073_709_551_616
  }

  ghost predicate InRange64(v: int) {
    -9_223_372_036_854_775_808 <= v < 9_223_372_036_854_775_808
  }

  /** The payload holds these labels and nothing else: source and then location, row after row. */
  ghost predicate Carries(payload: seq<Byte>, labels: seq<Label>) {
    && |payload| == 16 * |labels|
    && forall i | 0 <= i < |labels| ::
         && Spells(payload, 16 * i, labels[i].source) && InRange64(labels[i].source)
         && Spells(payload, 16 * i + 8, labels[i].location) && InRange64(labels[i].location)
  }

  // ---- One value -----------------------------------------------------------------------

  /** Eight bytes are read as the one value they stand for. */
  lemma SpelledIsRead(b: seq<Byte>, at: nat, v: int)
    requires at + 8 <= |b|
    ensures Signed64(b[at..at + 8]) == v <==> Spells(b, at, v) && InRange64(v)
  {
    LittleEight(b[at..at + 8]);
    Signed64Range(b[at..at + 8]);
  }

  // ---- All rows ----------------------------------------------------------------------------

  lemma {:induction false} LabelInPlace(payload: seq<Byte>, i: nat)
    requires 16 * i + 16 <= |payload|
    ensures i < |Labels(payload)|
    ensures Labels(payload)[i] == Label(Signed64(payload[16 * i..16 * i + 8]), Signed64(payload[16 * i + 8..16 * i + 16]))
    decreases i
  {
    hide Signed64;
    FirstLabel(payload);
    if i == 0 {
      assert payload[..16][..8] == payload[0..8] && payload[..16][8..] == payload[8..16];
    } else {
      var rest := payload[16..];
      LabelInPlace(rest, i - 1);
      assert rest[16 * (i - 1)..16 * (i - 1) + 8] == payload[16 * i..16 * i + 8];
      assert rest[16 * (i - 1) + 8..16 * (i - 1) + 16] == payload[16 * i + 8..16 * i + 16];
    }
  }

  /** A payload is read as these labels exactly if it carries them. */
  lemma CarriedAreRead(payload: seq<Byte>, labels: seq<Label>)
    ensures Carries(payload, labels) <==> |payload| == 16 * |labels| && Labels(payload) == labels
  {
    hide Signed64, Spells, InRange64, Labels;
    if |payload| == 16 * |labels| {
      forall i | 0 <= i < |labels|
        ensures Labels(payload)[i] == labels[i] <==>
                && Spells(payload, 16 * i, labels[i].source) && InRange64(labels[i].source)
                && Spells(payload, 16 * i + 8, labels[i].location) && InRange64(labels[i].location)
      {
        LabelInPlace(payload, i);
        SpelledIsRead(payload, 16 * i, labels[i].source);
        SpelledIsRead(payload, 16 * i + 8, labels[i].location);
      }
      if Labels(payload) == labels {
        assert Carries(payload, labels);
      }
      if Carries(payload, labels) {
        assert Labels(payload) == labels;
      }
    }
  }

  /** Any labels can be written. */
  lemma {:induction false} SomePayloadCarries(labels: seq<Label>) returns (payload: seq<Byte>)
    requires forall i | 0 <= i < |labels| :: InRange64(labels[i].source) && InRange64(labels[i].location)
    ensures Carries(payload, labels)
    decreases |labels|
  {
    hide Signed64, Spells;
    if labels == [] {
      payload := [];
    } else {
      var last := |labels| - 1;
      var before := SomePayloadCarries(labels[..last]);
      var a := EightFor(labels[last].source);
      var b := EightFor(labels[last].location);
      payload := before + (a + b);
      CarriedAreRead(before, labels[..last]);
      assert Labels(a + b) == [labels[last]] by {
        hide *;
        OneRow(a, b);
      }
      LabelsOfParts(before, a + b);
      assert labels == labels[..last] + [labels[last]];
      CarriedAreRead(payload, labels);
    }
  }

  lemma OneRow(a: seq<Byte>, b: seq<Byte>)
    requires |a| == |b| == 8
    ensures Labels(a + b) == [Label(Signed64(a), Signed64(b))]
  {
    hide Signed64;
    FirstLabel(a + b);
    NoLabels();
    assert (a + b)[..16] == a + b && (a + b)[16..] == [];
    assert (a + b)[..8] == a && (a + b)[8..] == b;
  }

  lemma EightFor(v: int) returns (b: seq<Byte>)
    requires InRange64(v)
    ensures |b| == 8 && Signed64(b) == v
  {
    var n := if v >= 0 then v else v + 18_446_744_073_709_551_616;
    LimitValues();
    b := Little(n, 8);
    LittleRoundTrip(n, 8);
  }

  // ---- What the two readers find ---------------------------------------------------------------

  /** The reader of the adapter, on a payload that carries these labels: when it succeeds, and with what. */
  lemma WrittenIsRead(contract: Contract, size: nat, payload: seq<Byte>, trailing: bool, hash: seq<Byte> -> string, labels: seq<Label>)
    requires Carries(payload, labels)
    ensures var r := Facts(contract, size, payload, trailing, hash);
            && (r.Success? <==>
                  && Encodable(labels) && |payload| >= size && |labels| == contract.rows && !trailing
                  && hash(contract.header + payload) == contract.digest
                  && |Sources(labels)| == contract.sources && |Locations(labels)| == contract.locations)
            && (r.Success? ==>
                  Encodes(r.value.runs, labels) && r.value.rows == |labels|
                  && r.value.sources == |Sources(labels)| && r.value.locations == |Locations(labels)|)
  {
    CarriedAreRead(payload, labels);
    EncodesWithinLimits(labels);
    if Encode(labels).Success? {
      EncodeIsSound(labels);
    }
    hide Encode, Encodable, Labels, Encodes, Sources, Locations, Carries;
  }

  /** And the counter: each label as often as it was written. */
  lemma WrittenIsCounted(rows: nat, payload: seq<Byte>, trailing: bool, labels: seq<Label>)
    requires Carries(payload, labels)
    ensures var r := Counted(rows, payload, trailing);
            && (r.Success? <==> Countable(labels) && |labels| >= rows && !trailing)
            && (r.Success? ==>
                  && (forall tag :: CountOf(r.value.combinations, tag) == multiset(labels)[tag])
                  && r.value.sources == Sources(labels) && r.value.locations == Locations(labels))
  {
    CarriedAreRead(payload, labels);
    CountsWithinLimits(labels);
    hide Count, Countable, Labels, Carries;
  }
}
