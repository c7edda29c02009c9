/** Classic packet captures: reading undoes writing, and nothing else is accepted. */
module PacketCapture {
  import opened Wrappers
  import opened Bytes

  const MAX_PACKET_BYTES := 16 * 1024 * 1024
  const MAX_RECORDS_PER_GROUP := 100_000

  datatype PcapError =
    | MalformedPcap
    | UnsupportedPcapMagic
    | InvalidPcapHeader
    | TrailingPcapData
    | MalformedPcapRecord
    | PcapRecordCountLimit

  /** Byte order and resolution, as the magic number tells them. */
  datatype Format = Format(big: bool, nanoseconds: bool)

  /** `zone`, `figures` and `network` are carried but not looked at. */
  datatype Header = Header(zone: seq<Byte>, figures: seq<Byte>, snaplen: nat, network: seq<Byte>)

  datatype Record = Record(seconds: nat, fraction: nat, original: nat, data: seq<Byte>)

  datatype Capture = Capture(format: Format, header: Header, records: seq<Record>)

  // ---- Words in either order ---------------------------------------------------------------

  function Word(f: Format, b: seq<Byte>): nat {
    if f.big then FromBig(b) else FromLittle(b)
  }

  function Emit(f: Format, n: nat, k: nat): (b: seq<Byte>)
    ensures |b| == k
  {
    if f.big then Big(n, k) else Little(n, k)
  }

  lemma WordOfEmit(f: Format, n: nat, k: nat)
    requires n < Limit(k)
    ensures Word(f, Emit(f, n, k)) == n
  {
    BigRoundTrip(n, k);
    LittleRoundTrip(n, k);
  }

  lemma EmitOfWord(f: Format, b: seq<Byte>)
    ensures Word(f, b) < Limit(|b|) && Emit(f, Word(f, b), |b|) == b
  {
    FromBigRoundTrip(b);
    FromLittleRoundTrip(b);
  }

  // ---- Writing -------------------------------------------------------------------------------

  function Magic(f: Format): seq<Byte> {
    if f.big then (if f.nanoseconds then [0xA1, 0xB2, 0x3C, 0x4D] else [0xA1, 0xB2, 0xC3, 0xD4])
    else (if f.nanoseconds then [0x4D, 0x3C, 0xB2, 0xA1] else [0xD4, 0xC3, 0xB2, 0xA1])
  }

  function WriteHeader(f: Format, h: Header): seq<Byte> {
    Magic(f) + Emit(f, 2, 2) + Emit(f, 4, 2) + h.zone + h.figures + Emit(f, h.snaplen, 4) + h.network
  }

  function WriteRecord(f: Format, r: Record): seq<Byte> {
    Emit(f, r.seconds, 4) + Emit(f, r.fraction, 4) + Emit(f, |r.data|, 4) + Emit(f, r.original, 4) + r.data
  }

  function WriteRecords(f: Format, records: seq<Record>): seq<Byte> {
    if records == [] then [] else WriteRecord(f, records[0]) + WriteRecords(f, records[1..])
  }

  function Write(c: Capture): seq<Byte> {
    WriteHeader(c.format, c.header) + WriteRecords(c.format, c.records)
  }

  // ---- What may be written ---------------------------------------------------------------------

  function FractionLimit(f: Format): nat {
    if f.nanoseconds then 1_000_000_000 else 1_000_000
  }

  predicate LegalHeader(h: Header) {
    |h.zone| == 4 && |h.figures| == 4 && |h.network| == 4 && 0 < h.snaplen <= 16_777_216
  }

  predicate LegalRecord(f: Format, snaplen: nat, r: Record) {
    && r.seconds < 0x1_0000_0000
    && r.fraction < (if f.nanoseconds then 1_000_000_000 else 1_000_000)
    && 0 < |r.data| <= snaplen && |r.data| <= 16_777_216
    && |r.data| <= r.original < 0x1_0000_0000
  }

  ghost predicate LegalRecords(f: Format, snaplen: nat, records: seq<Record>) {
    forall i :: 0 <= i < |records| ==> LegalRecord(f, snaplen, records[i])
  }

  ghost predicate Legal(c: Capture) {
    && LegalHeader(c.header)
    && LegalRecords(c.format, c.header.snaplen, c.records)
    && |c.records| <= 100_000
  }

  function Nanoseconds(f: Format, seconds: nat, fraction: nat): nat {
    seconds * 1_000_000_000 + fraction * if f.nanoseconds then 1 else 1_000
  }

  function Times(f: Format, records: seq<Record>): (times: seq<nat>)
    ensures |times| == |records|
  {
    seq(|records|, i requires 0 <= i < |records| => Nanoseconds(f, records[i].seconds, records[i].fraction))
  }

  /** A time tells its seconds and its fraction again. */
  lemma TimeTellsRecord(f: Format, snaplen: nat, r: Record)
    requires LegalRecord(f, snaplen, r)
    ensures var t := Nanoseconds(f, r.seconds, r.fraction);
            && t / 1_000_000_000 == r.seconds
            && (if f.nanoseconds then t % 1_000_000_000 == r.fraction
                else t % 1_000 == 0 && t % 1_000_000_000 / 1_000 == r.fraction)
  {
    var rest := if f.nanoseconds then r.fraction else r.fraction * 1_000;
    assert rest < 1_000_000_000;
    assert Nanoseconds(f, r.seconds, r.fraction) == r.seconds * 1_000_000_000 + rest;
  }

  /** Four bytes in the order the magic number tells. */
  lemma WordIsOrdered(f: Format, b: seq<Byte>)
    requires |b| == 4
    ensures Word(f, b) ==
            if f.big then 16_777_216 * b[0] as int + 65_536 * b[1] as int + 256 * b[2] as int + b[3] as int
            else b[0] as int + 256 * b[1] as int + 65_536 * b[2] as int + 16_777_216 * b[3] as int
  {
    BigFour(b);
    LittleFour(b);
  }

  // ---- Reading ----------------------------------------------------------------------------------

  function FormatOf(magic: seq<Byte>): Option<Format> {
    if magic == [0xD4, 0xC3, 0xB2, 0xA1] then Some(Format(false, false))
    else if magic == [0xA1, 0xB2, 0xC3, 0xD4] then Some(Format(true, false))
    else if magic == [0x4D, 0x3C, 0xB2, 0xA1] then Some(Format(false, true))
    else if magic == [0xA1, 0xB2, 0x3C, 0x4D] then Some(Format(true, true))
    else None
  }

  function HeaderOf(f: Format, b: seq<Byte>): Header
    requires |b| >= 24
  {
    Header(b[8..12], b[12..16], Word(f, b[16..20]), b[20..24])
  }

  predicate VersionOf(f: Format, b: seq<Byte>)
    requires |b| >= 24
  {
    Word(f, b[4..6]) == 2 && Word(f, b[6..8]) == 4
  }

  function Included(f: Format, b: seq<Byte>): nat
    requires |b| >= 16
  {
    Word(f, b[8..12])
  }

  /** The record at the front, if all of it is there. */
  function RecordOf(f: Format, b: seq<Byte>): Record
    requires |b| >= 16 && |b| - 16 >= Included(f, b)
  {
    Record(Word(f, b[..4]), Word(f, b[4..8]), Word(f, b[12..16]), b[16..16 + Included(f, b)])
  }

  function ReadRecords(f: Format, snaplen: nat, b: seq<Byte>, count: nat): Result<seq<Record>, PcapError>
    decreases |b|
  {
    if b == [] then Success([])
    else if |b| < 16 then Failure(TrailingPcapData)
    else if |b| - 16 < Included(f, b) || !LegalRecord(f, snaplen, RecordOf(f, b)) then Failure(MalformedPcapRecord)
    else if count + 1 > MAX_RECORDS_PER_GROUP then Failure(PcapRecordCountLimit)
    else
      var rest := ReadRecords(f, snaplen, b[16 + Included(f, b)..], count + 1);
      if rest.Failure? then rest else Success([RecordOf(f, b)] + rest.value)
  }

  function Read(b: seq<Byte>): Result<Capture, PcapError> {
    if |b| < 24 then Failure(MalformedPcap)
    else
      var format := FormatOf(b[..4]);
      if format.None? then Failure(UnsupportedPcapMagic)
      else
        var f := format.value;
        var h := HeaderOf(f, b);
        if !VersionOf(f, b) || !(0 < h.snaplen <= MAX_PACKET_BYTES) then Failure(InvalidPcapHeader)
        else
          var records := ReadRecords(f, h.snaplen, b[24..], 0);
          if records.Failure? then Failure(records.error) else Success(Capture(f, h, records.value))
  }

  // ---- Reading what was written --------------------------------------------------------------

  lemma RecordRoundTrip(f: Format, snaplen: nat, r: Record, rest: seq<Byte>)
    requires LegalRecord(f, snaplen, r)
    ensures var b := WriteRecord(f, r) + rest;
            && |b| - 16 >= Included(f, b) == |r.data| && RecordOf(f, b) == r
            && b[16 + Included(f, b)..] == rest
  {
    LimitValues();
    hide Emit, Word, Limit;
    WordOfEmit(f, r.seconds, 4);
    WordOfEmit(f, r.fraction, 4);
    WordOfEmit(f, |r.data|, 4);
    WordOfEmit(f, r.original, 4);
    RecordSlices(Emit(f, r.seconds, 4), Emit(f, r.fraction, 4), Emit(f, |r.data|, 4), Emit(f, r.original, 4), r.data, rest);
  }

  lemma RecordSlices(s: seq<Byte>, t: seq<Byte>, i: seq<Byte>, o: seq<Byte>, data: seq<Byte>, rest: seq<Byte>)
    requires |s| == |t| == |i| == |o| == 4
    ensures var b := s + t + i + o + data + rest;
            && |b| == 16 + |data| + |rest|
            && b[..4] == s && b[4..8] == t && b[8..12] == i && b[12..16] == o
            && b[16..16 + |data|] == data && b[16 + |data|..] == rest
  {
    var b, c := s + t + i + o, data + rest;
    assert b[..4] == s && b[4..8] == t && b[8..12] == i && b[12..16] == o;
    assert c[..|data|] == data && c[|data|..] == rest;
    var all := s + t + i + o + data + rest;
    assert all == b + c;
    assert all[..16] == b && all[16..] == c;
  }

  /** Whether a legal record stands at the front. */
  predicate FrontIsLegal(f: Format, snaplen: nat, b: seq<Byte>) {
    |b| >= 16 && |b| - 16 >= Included(f, b) && LegalRecord(f, snaplen, RecordOf(f, b))
  }

  lemma ReadOne(f: Format, snaplen: nat, b: seq<Byte>, count: nat)
    requires FrontIsLegal(f, snaplen, b) && count < MAX_RECORDS_PER_GROUP
    ensures var rest := ReadRecords(f, snaplen, b[16 + Included(f, b)..], count + 1);
            ReadRecords(f, snaplen, b, count) == if rest.Failure? then rest else Success([RecordOf(f, b)] + rest.value)
  {
    hide RecordOf, Included, LegalRecord;
  }

  lemma ReadStops(f: Format, snaplen: nat, b: seq<Byte>, count: nat)
    requires b != [] && ReadRecords(f, snaplen, b, count).Success?
    ensures FrontIsLegal(f, snaplen, b) && count < MAX_RECORDS_PER_GROUP
  {
    hide RecordOf, Included, LegalRecord;
  }

  lemma {:induction false} RecordsRoundTrip(f: Format, snaplen: nat, records: seq<Record>, count: nat)
    requires LegalRecords(f, snaplen, records) && count + |records| <= MAX_RECORDS_PER_GROUP
    ensures ReadRecords(f, snaplen, WriteRecords(f, records), count) == Success(records)
    decreases |records|
  {
    if records != [] {
      var rest := WriteRecords(f, records[1..]);
      var b := WriteRecord(f, records[0]) + rest;
      assert b == WriteRecords(f, records);
      assert LegalRecord(f, snaplen, records[0]);
      hide WriteRecord, Included, RecordOf, LegalRecord, ReadRecords;
      RecordRoundTrip(f, snaplen, records[0], rest);
      RecordsRoundTrip(f, snaplen, records[1..], count + 1);
      ReadOne(f, snaplen, b, count);
      assert [records[0]] + records[1..] == records;
    }
  }

  lemma HeaderRoundTrip(f: Format, h: Header, rest: seq<Byte>)
    requires LegalHeader(h)
    ensures var b := WriteHeader(f, h) + rest;
            && |b| >= 24 && b[..4] == Magic(f) && VersionOf(f, b) && HeaderOf(f, b) == h && b[24..] == rest
  {
    LimitValues();
    assert Limit(2) == 65536;
    hide Emit, Word, Limit;
    WordOfEmit(f, 2, 2);
    WordOfEmit(f, 4, 2);
    WordOfEmit(f, h.snaplen, 4);
    HeaderSlices(Magic(f), Emit(f, 2, 2), Emit(f, 4, 2), h.zone, h.figures, Emit(f, h.snaplen, 4), h.network, rest);
  }

  lemma HeaderSlices(m: seq<Byte>, v: seq<Byte>, w: seq<Byte>, z: seq<Byte>, g: seq<Byte>, s: seq<Byte>, n: seq<Byte>, rest: seq<Byte>)
    requires |m| == |z| == |g| == |s| == |n| == 4 && |v| == |w| == 2
    ensures var b := m + v + w + z + g + s + n + rest;
            && |b| >= 24 && b[..4] == m && b[4..6] == v && b[6..8] == w && b[8..12] == z && b[12..16] == g
            && b[16..20] == s && b[20..24] == n && b[24..] == rest
  {
    var b, c := m + v + w + z, g + s + n + rest;
    assert b[..4] == m && b[4..6] == v && b[6..8] == w && b[8..12] == z;
    assert c[..4] == g && c[4..8] == s && c[8..12] == n && c[12..] == rest;
    var all := m + v + w + z + g + s + n + rest;
    assert all == b + c;
    assert all[..12] == b && all[12..] == c;
  }

  /** Reading what was written returns it, in each of the four forms. */
  lemma ReadUndoesWrite(c: Capture)
    requires Legal(c)
    ensures Read(Write(c)) == Success(c)
  {
    MagicRoundTrip(c.format);
    hide WriteHeader, WriteRecords, HeaderOf, VersionOf, Magic, FormatOf, ReadRecords;
    var rest := WriteRecords(c.format, c.records);
    HeaderRoundTrip(c.format, c.header, rest);
    RecordsRoundTrip(c.format, c.header.snaplen, c.records, 0);
  }

  lemma MagicRoundTrip(f: Format)
    ensures FormatOf(Magic(f)) == Some(f)
  {
  }

  // ---- Nothing else is accepted ------------------------------------------------------------------

  lemma RecordRewritten(f: Format, b: seq<Byte>)
    requires |b| >= 16 && |b| - 16 >= Included(f, b)
    ensures WriteRecord(f, RecordOf(f, b)) == b[..16 + Included(f, b)]
  {
    var n := Included(f, b);
    EmitOfWord(f, b[..4]);
    EmitOfWord(f, b[4..8]);
    EmitOfWord(f, b[8..12]);
    EmitOfWord(f, b[12..16]);
    assert b[..16 + n] == b[..4] + b[4..8] + b[8..12] + b[12..16] + b[16..16 + n];
  }

  ghost predicate Rewrites(f: Format, snaplen: nat, records: seq<Record>, b: seq<Byte>) {
    WriteRecords(f, records) == b && LegalRecords(f, snaplen, records)
  }

  lemma OneRewritten(f: Format, snaplen: nat, b: seq<Byte>, rest: seq<Record>)
    requires FrontIsLegal(f, snaplen, b) && Rewrites(f, snaplen, rest, b[16 + Included(f, b)..])
    ensures Rewrites(f, snaplen, [RecordOf(f, b)] + rest, b)
  {
    hide WriteRecord, WriteRecords, RecordOf, Included, LegalRecord, LegalRecords;
    RecordRewritten(f, b);
    RecordsCons(f, snaplen, RecordOf(f, b), rest);
    var n := 16 + Included(f, b);
    assert b == b[..n] + b[n..];
  }

  lemma {:induction false} RecordsRewritten(f: Format, snaplen: nat, b: seq<Byte>, count: nat)
    requires ReadRecords(f, snaplen, b, count).Success? && count <= MAX_RECORDS_PER_GROUP
    ensures var records := ReadRecords(f, snaplen, b, count).value;
            Rewrites(f, snaplen, records, b) && count + |records| <= MAX_RECORDS_PER_GROUP
    decreases |b|
  {
    hide RecordOf, Included, LegalRecord, ReadRecords, Rewrites;
    if b != [] {
      ReadStops(f, snaplen, b, count);
      ReadOne(f, snaplen, b, count);
      RecordsRewritten(f, snaplen, b[16 + Included(f, b)..], count + 1);
      OneRewritten(f, snaplen, b, ReadRecords(f, snaplen, b[16 + Included(f, b)..], count + 1).value);
    } else {
      NothingRead(f, snaplen, count);
    }
  }

  lemma RecordsCons(f: Format, snaplen: nat, first: Record, rest: seq<Record>)
    ensures WriteRecords(f, [first] + rest) == WriteRecord(f, first) + WriteRecords(f, rest)
    ensures LegalRecord(f, snaplen, first) && LegalRecords(f, snaplen, rest) ==> LegalRecords(f, snaplen, [first] + rest)
  {
    hide WriteRecord, LegalRecord;
    assert ([first] + rest)[1..] == rest;
  }

  lemma NothingRead(f: Format, snaplen: nat, count: nat)
    ensures ReadRecords(f, snaplen, [], count) == Success([]) && Rewrites(f, snaplen, [], [])
  {
  }

  lemma HeaderRewritten(f: Format, b: seq<Byte>)
    requires |b| >= 24 && FormatOf(b[..4]) == Some(f) && VersionOf(f, b)
    ensures WriteHeader(f, HeaderOf(f, b)) == b[..24]
  {
    assert Magic(f) == b[..4];
    hide Emit, Word, Magic, FormatOf;
    EmitOfWord(f, b[4..6]);
    EmitOfWord(f, b[6..8]);
    EmitOfWord(f, b[16..20]);
    assert b[..24] == b[..4] + b[4..6] + b[6..8] + b[8..12] + b[12..16] + b[16..20] + b[20..24];
  }

  /** A payload is accepted only if it is one legal header and whole legal records, and nothing more. */
  lemma OnlyWrittenIsRead(b: seq<Byte>)
    requires Read(b).Success?
    ensures Legal(Read(b).value) && Write(Read(b).value) == b
  {
    var f := FormatOf(b[..4]).value;
    var h := HeaderOf(f, b);
    HeaderRewritten(f, b);
    RecordsRewritten(f, h.snaplen, b[24..], 0);
    assert LegalHeader(h);
    assert b == b[..24] + b[24..];
    hide WriteHeader, HeaderOf, VersionOf, FormatOf, ReadRecords;
  }

  /** So the accepted payloads are exactly the written ones. */
  lemma AcceptedIsWritten(b: seq<Byte>)
    ensures Read(b).Success? <==> exists c :: Legal(c) && Write(c) == b
  {
    hide Read, Write, Legal;
    if Read(b).Success? {
      OnlyWrittenIsRead(b);
    }
    if c :| Legal(c) && Write(c) == b {
      ReadUndoesWrite(c);
    }
  }

  // ---- The loop ------------------------------------------------------------------------------------

  /** What the parser returns of a payload. */
  function Timestamps(b: seq<Byte>): Result<seq<nat>, PcapError> {
    var read := Read(b);
    if read.Failure? then Failure(read.error) else Success(Times(read.value.format, read.value.records))
  }

  function After(done: seq<nat>, f: Format, rest: Result<seq<Record>, PcapError>): Result<seq<nat>, PcapError> {
    if rest.Failure? then Failure(rest.error) else Success(done + Times(f, rest.value))
  }

  lemma NothingBefore(f: Format, rest: Result<seq<Record>, PcapError>)
    ensures After([], f, rest) == if rest.Failure? then Failure(rest.error) else Success(Times(f, rest.value))
  {
    if rest.Success? {
      assert [] + Times(f, rest.value) == Times(f, rest.value);
    }
  }

  lemma TimesOneMore(done: seq<nat>, f: Format, r: Record, rest: seq<Record>)
    ensures done + Times(f, [r] + rest) == done + [Nanoseconds(f, r.seconds, r.fraction)] + Times(f, rest)
  {
  }

  method ParsePcap(payload: seq<Byte>) returns (r: Result<seq<nat>, PcapError>)
    ensures r == Timestamps(payload)
  {
    if |payload| < 24 {
      return Failure(MalformedPcap);
    }
    var selected := FormatOf(payload[..4]);
    if selected.None? {
      return Failure(UnsupportedPcapMagic);
    }
    var f := selected.value;
    var snaplen := Word(f, payload[16..20]);
    if Word(f, payload[4..6]) != 2 || Word(f, payload[6..8]) != 4 || !(0 < snaplen <= MAX_PACKET_BYTES) {
      return Failure(InvalidPcapHeader);
    }
    r := ParseRecords(f, snaplen, payload);
    NothingBefore(f, ReadRecords(f, snaplen, payload[24..], 0));
  }

  method ParseRecords(f: Format, snaplen: nat, payload: seq<Byte>) returns (r: Result<seq<nat>, PcapError>)
    requires |payload| >= 24
    ensures r == After([], f, ReadRecords(f, snaplen, payload[24..], 0))
  {
    hide Word, Nanoseconds;
    var timestamps: seq<nat>, offset := [], 24;
    while offset < |payload|
      invariant 24 <= offset <= |payload|
      invariant After([], f, ReadRecords(f, snaplen, payload[24..], 0))
             == After(timestamps, f, ReadRecords(f, snaplen, payload[offset..], |timestamps|))
      decreases |payload| - offset
    {
      if |payload| - offset < 16 {
        return Failure(TrailingPcapData);
      }
      ghost var b := payload[offset..];
      FieldsAt(payload, offset);
      var seconds, fraction := Word(f, payload[offset..offset + 4]), Word(f, payload[offset + 4..offset + 8]);
      var included, original := Word(f, payload[offset + 8..offset + 12]), Word(f, payload[offset + 12..offset + 16]);
      offset := offset + 16;
      WordsFit(f, b);
      if
        || fraction >= FractionLimit(f)
        || !(0 < included <= snaplen)
        || included > MAX_PACKET_BYTES
        || original < included
        || |payload| - offset < included
      {
        return Failure(MalformedPcapRecord);
      }
      ghost var record := RecordOf(f, b);
      assert b[16 + included..] == payload[offset + included..];
      offset := offset + included;
      ghost var rest := ReadRecords(f, snaplen, payload[offset..], |timestamps| + 1);
      if rest.Success? {
        TimesOneMore(timestamps, f, record, rest.value);
      }
      timestamps := timestamps + [Nanoseconds(f, seconds, fraction)];
      if |timestamps| > MAX_RECORDS_PER_GROUP {
        return Failure(PcapRecordCountLimit);
      }
    }
    assert payload[offset..] == [];
    assert timestamps + Times(f, []) == timestamps;
    r := Success(timestamps);
  }

  lemma FieldsAt(payload: seq<Byte>, offset: nat)
    requires offset + 16 <= |payload|
    ensures var b := payload[offset..];
            && b[..4] == payload[offset..offset + 4] && b[4..8] == payload[offset + 4..offset + 8]
            && b[8..12] == payload[offset + 8..offset + 12] && b[12..16] == payload[offset + 12..offset + 16]
  {
  }

  lemma WordsFit(f: Format, b: seq<Byte>)
    requires |b| >= 16
    ensures Word(f, b[..4]) < 0x1_0000_0000 && Word(f, b[12..16]) < 0x1_0000_0000
  {
    EmitOfWord(f, b[..4]);
    EmitOfWord(f, b[12..16]);
    LimitValues();
  }
}
