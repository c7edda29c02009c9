/** A ragged store of samples: rows end to end, and the offsets at which they start. */
module IqStore {
  import opened Wrappers
  import opened ComplexTokens

  datatype AdapterError =
    | InvalidToken
    | InvalidSampleCount
    | NonfiniteSample
    | MixedIdentityFile
    | MaxRowsExceeded
    | MaxSamplesExceeded
    | EmptyCsvFile
    | PublisherIdentityNotOneToOne
    | NpyHeaderOverflow

  /** A row of a file: who it is said to come from, and its samples as printed. */
  datatype Line = Line(device: string, address: string, tokens: seq<string>)

  datatype Limits = Limits(rows: nat, samples: nat, samplesPerRow: nat)

  /** What a printed element stands for, and whether that is finite. */
  datatype Reading<!S> = Reading(value: string -> S, finite: S -> bool)

  datatype Span = Span(device: string, start: nat, end: nat)

  datatype Store<S> = Store(samples: seq<S>, offsets: seq<nat>, spans: seq<Span>)

  // ---- Rows, end to end ------------------------------------------------------------------------

  function Flatten<S>(rows: seq<seq<S>>): seq<S> {
    if rows == [] then [] else Flatten(rows[..|rows| - 1]) + rows[|rows| - 1]
  }

  function Offsets<S>(rows: seq<seq<S>>): (offsets: seq<nat>)
    ensures |offsets| == |rows| + 1
  {
    seq(|rows| + 1, i requires 0 <= i <= |rows| => |Flatten(rows[..i])|)
  }

  lemma {:induction false} FlattenPrefix<S>(rows: seq<seq<S>>, i: nat)
    requires i <= |rows|
    ensures Flatten(rows[..i]) <= Flatten(rows)
    decreases |rows|
  {
    if i < |rows| {
      var rest := rows[..|rows| - 1];
      assert rest[..i] == rows[..i];
      FlattenPrefix(rest, i);
    } else {
      assert rows[..i] == rows;
    }
  }

  lemma FlattenNext<S>(rows: seq<seq<S>>, i: nat)
    requires i < |rows|
    ensures Flatten(rows[..i + 1]) == Flatten(rows[..i]) + rows[i]
  {
    assert rows[..i + 1][..i] == rows[..i];
  }

  /** The offsets slice the samples back into the rows. */
  lemma SlicesAreRows<S>(rows: seq<seq<S>>, i: nat)
    requires i < |rows|
    ensures 0 <= Offsets(rows)[i] <= Offsets(rows)[i + 1] <= |Flatten(rows)|
    ensures Flatten(rows)[Offsets(rows)[i]..Offsets(rows)[i + 1]] == rows[i]
  {
    FlattenNext(rows, i);
    FlattenPrefix(rows, i + 1);
    var a, b := Flatten(rows[..i]), Flatten(rows[..i + 1]);
    assert Flatten(rows)[..|b|] == b;
    assert b[|a|..] == rows[i];
  }

  lemma {:induction false} OffsetsIncrease<S>(rows: seq<seq<S>>, i: nat, j: nat)
    requires i < j <= |rows| && forall k :: 0 <= k < |rows| ==> rows[k] != []
    ensures Offsets(rows)[i] < Offsets(rows)[j]
    decreases j - i
  {
    FlattenNext(rows, j - 1);
    if i + 1 < j {
      OffsetsIncrease(rows, i, j - 1);
    }
  }

  lemma OffsetEnds<S>(rows: seq<seq<S>>)
    ensures Offsets(rows)[0] == 0 && Offsets(rows)[|rows|] == |Flatten(rows)|
  {
    assert rows[..0] == [] && rows[..|rows|] == rows;
  }

  // ---- The header keeps its place -----------------------------------------------------------------

  const NPY_HEADER_BYTES := 246

  function Decimal(n: nat): (s: string)
    ensures s != []
  {
    if n < 10 then [('0' as int + n) as char] else Decimal(n / 10) + [('0' as int + n % 10) as char]
  }

  /** What decimal digits stand for, the first one first. */
  function NumberOf(s: string): int {
    if s == [] then 0 else 10 * NumberOf(s[..|s| - 1]) + (s[|s| - 1] as int - '0' as int)
  }

  /** A number is printed in digits that stand for it, without leading zeros. */
  lemma {:induction false} DecimalIsReadable(n: nat)
    ensures NumberOf(Decimal(n)) == n
    ensures forall i :: 0 <= i < |Decimal(n)| ==> '0' <= Decimal(n)[i] <= '9'
    ensures Decimal(n)[0] == '0' ==> n == 0 && |Decimal(n)| == 1
  {
    var s := Decimal(n);
    if n < 10 {
      assert s[..0] == [];
    } else {
      DecimalIsReadable(n / 10);
      assert s[..|s| - 1] == Decimal(n / 10);
    }
  }

  function Dictionary(dtype: string, length: nat): string {
    "{'descr': '" + dtype + "', 'fortran_order': False, 'shape': (" + Decimal(length) + ",)}"
  }

  function Spaces(n: nat): (s: string)
    ensures |s| == n
  {
    seq(n, i => ' ')
  }

  /** Magic and version, the length of the body, and the body padded to a fixed length. */
  function NpyHeader(dtype: string, length: nat): (r: Result<string, AdapterError>)
    ensures r.Success? <==> |Dictionary(dtype, length)| < 246
    ensures r.Success? ==> |r.value| == 256 && r.value[255] == '\n'
    ensures r.Success? ==> r.value[10..10 + |Dictionary(dtype, length)|] == Dictionary(dtype, length)
    ensures r.Success? ==> forall i :: 10 + |Dictionary(dtype, length)| <= i < 255 ==> r.value[i] == ' '
    ensures r.Success? ==> r.value[0] as int == 147 && r.value[1] == 'N' && r.value[2] == 'U' && r.value[3] == 'M' && r.value[4] == 'P' && r.value[5] == 'Y'
    ensures r.Success? ==> r.value[6] as int == 1 && r.value[7] as int == 0 && r.value[8] as int + 256 * r.value[9] as int == |r.value| - 10
  {
    var dictionary := Dictionary(dtype, length);
    if |dictionary| + 1 > NPY_HEADER_BYTES then Failure(NpyHeaderOverflow)
    else
      var magic: string := [0x93 as char, 'N', 'U', 'M', 'P', 'Y', 1 as char, 0 as char, NPY_HEADER_BYTES as char, 0 as char];
      var header := magic + dictionary + Spaces(NPY_HEADER_BYTES - |dictionary| - 1) + "\n";
      assert header[10..10 + |dictionary|] == dictionary;
      Success(header)
  }

  /** The header holds the dictionary as Python prints it. */
  lemma HeaderIsPrinted(dtype: string, length: nat)
    ensures var printed := "{'descr': '" + dtype + "', 'fortran_order': False, 'shape': (" + Decimal(length) + ",)}";
            var r := NpyHeader(dtype, length);
            (r.Success? <==> |printed| < 246) && (r.Success? ==> r.value[10..10 + |printed|] == printed)
  {
    var printed := "{'descr': '" + dtype + "', 'fortran_order': False, 'shape': (" + Decimal(length) + ",)}";
    assert printed == Dictionary(dtype, length);
    hide Dictionary;
  }

  /** Writing at the start of a file. */
  function Overwrite(file: string, head: string): string {
    head + if |head| <= |file| then file[|head|..] else []
  }

  /** Rewriting the header leaves what follows it in place. */
  lemma RewritingKeepsPayload(dtype: string, before: nat, after: nat, payload: string)
    requires NpyHeader(dtype, before).Success? && NpyHeader(dtype, after).Success?
    ensures Overwrite(NpyHeader(dtype, before).value + payload, NpyHeader(dtype, after).value) == NpyHeader(dtype, after).value + payload
  {
  }

  // ---- The rows of the files ------------------------------------------------------------------------

  predicate Long(tokens: seq<string>) {
    exists i :: 0 <= i < |tokens| && |tokens[i]| > 128
  }

  function Samples<S>(line: Line, maximum: nat, reading: Reading<S>): (r: Result<seq<S>, AdapterError>)
    ensures r.Success? ==> 0 < |r.value| <= maximum
  {
    var elements := Rejoined(line.tokens);
    if Long(line.tokens) || elements.Failure? then Failure(InvalidToken)
    else if elements.value == [] || |elements.value| > maximum then Failure(InvalidSampleCount)
    else if Long(elements.value) then Failure(InvalidToken)
    else
      var samples := seq(|elements.value|, i requires 0 <= i < |elements.value| => reading.value(elements.value[i]));
      if exists i :: 0 <= i < |samples| && !reading.finite(samples[i]) then Failure(NonfiniteSample) else Success(samples)
  }

  /**
   * A row is read exactly if its tokens split elements, not too many or too
   * long, that all stand for finite samples; its samples are then those, in order.
   */
  lemma SamplesAreRead<S>(line: Line, maximum: nat, reading: Reading<S>, elements: seq<string>)
    ensures Samples(line, maximum, reading).Success? ==> exists e :: Splits(line.tokens, e)
    ensures Splits(line.tokens, elements) ==>
              (Samples(line, maximum, reading).Success? <==>
                 && (forall i :: 0 <= i < |line.tokens| ==> |line.tokens[i]| <= 128)
                 && 0 < |elements| <= maximum && (forall i :: 0 <= i < |elements| ==> |elements[i]| <= 128)
                 && forall i :: 0 <= i < |elements| ==> reading.finite(reading.value(elements[i])))
    ensures Splits(line.tokens, elements) && Samples(line, maximum, reading).Success? ==>
              var samples := Samples(line, maximum, reading).value;
              |samples| == |elements| && forall i :: 0 <= i < |elements| ==> samples[i] == reading.value(elements[i])
  {
    RejoiningRecovers(line.tokens, elements);
    if Samples(line, maximum, reading).Success? {
      RejoiningRecovers(line.tokens, Rejoined(line.tokens).value);
    }
    if Splits(line.tokens, elements) {
      hide Rejoined, Splits;
      ReadAll(line, maximum, reading, elements);
    }
  }

  lemma ReadAll<S>(line: Line, maximum: nat, reading: Reading<S>, elements: seq<string>)
    requires Rejoined(line.tokens) == Success(elements)
    ensures Samples(line, maximum, reading).Success? <==>
              && !Long(line.tokens) && 0 < |elements| <= maximum && !Long(elements)
              && forall i :: 0 <= i < |elements| ==> reading.finite(reading.value(elements[i]))
    ensures Samples(line, maximum, reading).Success? ==>
              var samples := Samples(line, maximum, reading).value;
              |samples| == |elements| && forall i :: 0 <= i < |elements| ==> samples[i] == reading.value(elements[i])
  {
    hide Rejoined, Long;
    var samples := seq(|elements|, i requires 0 <= i < |elements| => reading.value(elements[i]));
    assert forall i :: 0 <= i < |elements| ==> samples[i] == reading.value(elements[i]);
  }

  function RowOf<S>(line: Line, maximum: nat, reading: Reading<S>): seq<S> {
    var samples := Samples(line, maximum, reading);
    if samples.Success? then samples.value else []
  }

  function RowsOf<S>(lines: seq<Line>, maximum: nat, reading: Reading<S>): (rows: seq<seq<S>>)
    ensures |rows| == |lines|
  {
    seq(|lines|, i requires 0 <= i < |lines| => RowOf(lines[i], maximum, reading))
  }

  // ---- What is accepted, and what is stored ------------------------------------------------------------

  ghost predicate Readable<S>(lines: seq<Line>, maximum: nat, reading: Reading<S>) {
    forall i :: 0 <= i < |lines| ==> Samples(lines[i], maximum, reading).Success?
  }

  /** All lines of a file name the same device and address. */
  ghost predicate OneIdentity(file: seq<Line>) {
    OneIdentityUpTo(file, |file|)
  }

  ghost predicate OneIdentityUpTo(file: seq<Line>, n: nat)
    requires n <= |file|
  {
    forall i :: 0 <= i < n ==> file[i].device == file[0].device && file[i].address == file[0].address
  }

  ghost predicate Fits<S>(lines: seq<Line>, limits: Limits, reading: Reading<S>) {
    && Readable(lines, limits.samplesPerRow, reading)
    && |lines| <= limits.rows
    && |Flatten(RowsOf(lines, limits.samplesPerRow, reading))| <= limits.samples
  }

  ghost predicate NoneEmpty(files: seq<seq<Line>>) {
    forall f :: 0 <= f < |files| ==> files[f] != []
  }

  ghost predicate Consistent(files: seq<seq<Line>>) {
    forall f :: 0 <= f < |files| ==> OneIdentity(files[f])
  }

  /** Devices and addresses are in bijection. */
  ghost predicate OneToOne(files: seq<seq<Line>>)
    requires NoneEmpty(files)
  {
    forall f, g :: 0 <= f < |files| && 0 <= g < |files| ==>
      (files[f][0].device == files[g][0].device <==> files[f][0].address == files[g][0].address)
  }

  ghost predicate Acceptable<S>(files: seq<seq<Line>>, limits: Limits, reading: Reading<S>) {
    && NoneEmpty(files) && Consistent(files) && OneToOne(files)
    && Fits(Flatten(files), limits, reading)
  }

  function SpansOf(files: seq<seq<Line>>): (spans: seq<Span>)
    requires NoneEmpty(files)
    ensures |spans| == |files|
  {
    seq(|files|, i requires 0 <= i < |files| => Span(files[i][0].device, Offsets(files)[i], Offsets(files)[i + 1]))
  }

  lemma SpanAt(files: seq<seq<Line>>, f: nat)
    requires NoneEmpty(files) && f < |files|
    ensures SpansOf(files)[f] == Span(files[f][0].device, Offsets(files)[f], Offsets(files)[f + 1])
  {
  }

  /** The spans tile the rows, and the rows of a span are those of its file. */
  lemma SpansTileRows(files: seq<seq<Line>>, f: nat)
    requires NoneEmpty(files) && f < |files|
    ensures var spans := SpansOf(files);
            && spans[0].start == 0 && spans[|files| - 1].end == |Flatten(files)|
            && (f > 0 ==> spans[f].start == spans[f - 1].end)
            && spans[f].start < spans[f].end <= |Flatten(files)|
            && Flatten(files)[spans[f].start..spans[f].end] == files[f]
  {
    hide SpansOf, Offsets, Flatten;
    OffsetEnds(files);
    SlicesAreRows(files, f);
    OffsetsIncrease(files, f, f + 1);
    SpanAt(files, 0);
    SpanAt(files, |files| - 1);
    SpanAt(files, f);
    if f > 0 {
      SpanAt(files, f - 1);
    }
  }

  /** Every row kept has a sample, so the offsets of an accepted store increase strictly. */
  lemma StoredOffsetsIncrease<S>(files: seq<seq<Line>>, limits: Limits, reading: Reading<S>, i: nat, j: nat)
    requires Acceptable(files, limits, reading) && i < j <= |Flatten(files)|
    ensures var offsets := Offsets(RowsOf(Flatten(files), limits.samplesPerRow, reading)); offsets[i] < offsets[j]
  {
    var lines := Flatten(files);
    var rows := RowsOf(lines, limits.samplesPerRow, reading);
    forall k | 0 <= k < |rows| ensures rows[k] != [] {
      assert Samples(lines[k], limits.samplesPerRow, reading).Success?;
    }
    OffsetsIncrease(rows, i, j);
  }

  // ---- The loops -------------------------------------------------------------------------------------------

  lemma OffsetsOneMore<S>(rows: seq<seq<S>>, row: seq<S>)
    ensures Flatten(rows + [row]) == Flatten(rows) + row
    ensures Offsets(rows + [row]) == Offsets(rows) + [|Flatten(rows)| + |row|]
  {
    var more := rows + [row];
    assert more[..|rows|] == rows && more[..|more|] == more;
    FlattenNext(more, |rows|);
    hide Flatten;
    forall i | 0 <= i <= |rows| ensures more[..i] == rows[..i] {
    }
  }

  /** What the two files hold after some rows. */
  ghost predicate Stored<S>(lines: seq<Line>, maximum: nat, reading: Reading<S>, samples: seq<S>, offsets: seq<nat>) {
    var rows := RowsOf(lines, maximum, reading);
    samples == Flatten(rows) && offsets == Offsets(rows)
  }

  lemma RowsOneMore<S>(lines: seq<Line>, line: Line, maximum: nat, reading: Reading<S>)
    ensures RowsOf(lines + [line], maximum, reading) == RowsOf(lines, maximum, reading) + [RowOf(line, maximum, reading)]
  {
    hide RowOf;
  }

  lemma ReadableOneMore<S>(lines: seq<Line>, line: Line, maximum: nat, reading: Reading<S>)
    ensures Readable(lines + [line], maximum, reading) <==> Readable(lines, maximum, reading) && Samples(line, maximum, reading).Success?
  {
    hide Samples;
    var more := lines + [line];
    assert more[|lines|] == line && forall i :: 0 <= i < |lines| ==> more[i] == lines[i];
  }

  /** One more line is stored at the end, if it fits. */
  lemma StoredOneMore<S>(lines: seq<Line>, line: Line, limits: Limits, reading: Reading<S>, samples: seq<S>, offsets: seq<nat>)
    requires Fits(lines, limits, reading) && Stored(lines, limits.samplesPerRow, reading, samples, offsets)
    ensures var row := Samples(line, limits.samplesPerRow, reading);
            && (row.Success? ==>
                  Stored(lines + [line], limits.samplesPerRow, reading, samples + row.value, offsets + [|samples| + |row.value|]))
            && (Fits(lines + [line], limits, reading) <==>
                  row.Success? && |lines| + 1 <= limits.rows && |samples| + |row.value| <= limits.samples)
  {
    ReadableOneMore(lines, line, limits.samplesPerRow, reading);
    RowsOneMore(lines, line, limits.samplesPerRow, reading);
    OffsetsOneMore(RowsOf(lines, limits.samplesPerRow, reading), RowOf(line, limits.samplesPerRow, reading));
    hide Flatten, Offsets, RowsOf, Samples, Readable;
  }

  lemma FitsPrefix<S>(lines: seq<Line>, i: nat, limits: Limits, reading: Reading<S>)
    requires i <= |lines| && Fits(lines, limits, reading)
    ensures Fits(lines[..i], limits, reading)
  {
    hide Samples, RowOf;
    var rows := RowsOf(lines, limits.samplesPerRow, reading);
    assert RowsOf(lines[..i], limits.samplesPerRow, reading) == rows[..i];
    FlattenPrefix(rows, i);
  }

  lemma LinesGrow<S>(before: seq<Line>, file: seq<Line>, j: nat, limits: Limits, reading: Reading<S>)
    requires j < |file|
    ensures before + file[..j + 1] == before + file[..j] + [file[j]]
    ensures Fits(before + file, limits, reading) ==> Fits(before + file[..j] + [file[j]], limits, reading)
  {
    hide Fits;
    assert before + file[..j + 1] == before + file[..j] + [file[j]];
    assert (before + file)[..|before| + j + 1] == before + file[..j + 1];
    if Fits(before + file, limits, reading) {
      FitsPrefix(before + file, |before| + j + 1, limits, reading);
    }
  }

  /** A file is fine if each line is: what is refused on the way makes the whole unacceptable. */
  lemma LineOfFile<S>(before: seq<Line>, file: seq<Line>, j: nat, limits: Limits, reading: Reading<S>)
    requires j < |file|
    ensures before + file[..j + 1] == before + file[..j] + [file[j]]
    ensures Fits(before + file, limits, reading) ==> Fits(before + file[..j] + [file[j]], limits, reading)
    ensures OneIdentityUpTo(file, j) && file[j].device == file[0].device && file[j].address == file[0].address ==> OneIdentityUpTo(file, j + 1)
    ensures OneIdentity(file) ==> file[j].device == file[0].device && file[j].address == file[0].address
  {
    LinesGrow(before, file, j, limits, reading);
    hide Fits;
  }

  /** Adds the rows of one file to those read before. */
  method ReadFile<S>(ghost before: seq<Line>, file: seq<Line>, limits: Limits, reading: Reading<S>, samples: seq<S>, offsets: seq<nat>)
    returns (r: Result<(seq<S>, seq<nat>), AdapterError>)
    requires Fits(before, limits, reading) && |offsets| == |before| + 1
    requires Stored(before, limits.samplesPerRow, reading, samples, offsets)
    ensures r.Success? <==> file != [] && OneIdentity(file) && Fits(before + file, limits, reading)
    ensures r.Success? ==> Stored(before + file, limits.samplesPerRow, reading, r.value.0, r.value.1)
    ensures r.Success? ==> |r.value.1| == |offsets| + |file|
  {
    hide Fits, Stored, OneIdentityUpTo, Samples;
    var all: seq<S>, starts: seq<nat>, rows: nat := samples, offsets, |offsets| - 1;
    var identity: Option<(string, string)> := None;
    assert before + file[..0] == before;
    NoLines(file);
    for j := 0 to |file|
      invariant OneIdentityUpTo(file, j) && Fits(before + file[..j], limits, reading)
      invariant identity == if j == 0 then None else Some((file[0].device, file[0].address))
      invariant rows == |before| + j && |starts| == rows + 1
      invariant Stored(before + file[..j], limits.samplesPerRow, reading, all, starts)
    {
      var line := file[j];
      LineOfFile(before, file, j, limits, reading);
      StoredOneMore(before + file[..j], line, limits, reading, all, starts);
      if identity.None? {
        identity := Some((line.device, line.address));
      } else if (line.device, line.address) != identity.value {
        return Failure(MixedIdentityFile);
      }
      var row := Samples(line, limits.samplesPerRow, reading);
      if row.Failure? {
        return Failure(row.error);
      }
      rows := rows + 1;
      var count := |all| + |row.value|;
      if rows > limits.rows {
        return Failure(MaxRowsExceeded);
      }
      if count > limits.samples {
        return Failure(MaxSamplesExceeded);
      }
      all, starts := all + row.value, starts + [count];
    }
    assert file[..|file|] == file;
    if identity.None? {
      return Failure(EmptyCsvFile);
    }
    r := Success((all, starts));
  }

  lemma NoLines(file: seq<Line>)
    ensures OneIdentityUpTo(file, 0)
  {
  }

  ghost predicate NamesDevice(files: seq<seq<Line>>, device: string)
    requires NoneEmpty(files)
  {
    exists f :: 0 <= f < |files| && files[f][0].device == device
  }

  ghost predicate NamesAddress(files: seq<seq<Line>>, address: string)
    requires NoneEmpty(files)
  {
    exists f :: 0 <= f < |files| && files[f][0].address == address
  }

  ghost predicate Entered(devices: map<string, string>, addresses: map<string, string>, device: string, address: string) {
    device in devices && devices[device] == address && address in addresses && addresses[address] == device
  }

  /** The maps hold the device and address of each file read, and nothing else. */
  ghost predicate Paired(devices: map<string, string>, addresses: map<string, string>, files: seq<seq<Line>>)
    requires NoneEmpty(files)
  {
    && (forall f :: 0 <= f < |files| ==> Entered(devices, addresses, files[f][0].device, files[f][0].address))
    && (forall d :: d in devices ==> NamesDevice(files, d))
    && (forall a :: a in addresses ==> NamesAddress(files, a))
  }

  lemma NamesMore(files: seq<seq<Line>>, file: seq<Line>)
    requires NoneEmpty(files) && file != []
    ensures NoneEmpty(files + [file])
    ensures forall d :: NamesDevice(files + [file], d) <==> NamesDevice(files, d) || d == file[0].device
    ensures forall a :: NamesAddress(files + [file], a) <==> NamesAddress(files, a) || a == file[0].address
  {
    var all: seq<seq<Line>> := files + [file];
    assert all[|files|] == file && forall f :: 0 <= f < |files| ==> all[f] == files[f];
  }

  predicate Agrees(devices: map<string, string>, addresses: map<string, string>, device: string, address: string) {
    (device in devices ==> devices[device] == address) && (address in addresses ==> addresses[address] == device)
  }

  lemma PairedMeansOneToOne(devices: map<string, string>, addresses: map<string, string>, files: seq<seq<Line>>)
    requires NoneEmpty(files) && Paired(devices, addresses, files)
    ensures OneToOne(files)
  {
    forall f, g | 0 <= f < |files| && 0 <= g < |files|
      ensures files[f][0].device == files[g][0].device <==> files[f][0].address == files[g][0].address
    {
      assert Entered(devices, addresses, files[f][0].device, files[f][0].address);
      assert Entered(devices, addresses, files[g][0].device, files[g][0].address);
    }
  }

  lemma PairedOneMore(devices: map<string, string>, addresses: map<string, string>, files: seq<seq<Line>>, file: seq<Line>)
    requires NoneEmpty(files) && file != [] && Paired(devices, addresses, files)
    requires Agrees(devices, addresses, file[0].device, file[0].address)
    ensures Paired(devices[file[0].device := file[0].address], addresses[file[0].address := file[0].device], files + [file])
  {
    var all: seq<seq<Line>> := files + [file];
    var d, a := file[0].device, file[0].address;
    NamesMore(files, file);
    hide NamesDevice, NamesAddress;
    forall f | 0 <= f < |all| ensures Entered(devices[d := a], addresses[a := d], all[f][0].device, all[f][0].address) {
      if f < |files| {
        assert all[f] == files[f];
        assert Entered(devices, addresses, files[f][0].device, files[f][0].address);
      }
    }
  }

  lemma OneToOneAgrees(devices: map<string, string>, addresses: map<string, string>, files: seq<seq<Line>>, i: nat)
    requires i < |files| && NoneEmpty(files) && OneToOne(files) && NoneEmpty(files[..i]) && Paired(devices, addresses, files[..i])
    ensures Agrees(devices, addresses, files[i][0].device, files[i][0].address)
  {
    var d, a := files[i][0].device, files[i][0].address;
    assert d in devices ==> NamesDevice(files[..i], d);
    assert a in addresses ==> NamesAddress(files[..i], a);
    if d in devices {
      var f :| 0 <= f < i && files[..i][f][0].device == d;
      assert Entered(devices, addresses, files[..i][f][0].device, files[..i][f][0].address);
      assert files[f][0].address == a;
    }
    if a in addresses {
      var f :| 0 <= f < i && files[..i][f][0].address == a;
      assert Entered(devices, addresses, files[..i][f][0].device, files[..i][f][0].address);
      assert files[f][0].device == d;
    }
  }

  /** What has been read so far. */
  ghost predicate Reached<S>(files: seq<seq<Line>>, limits: Limits, reading: Reading<S>, store: Store<S>,
                             devices: map<string, string>, addresses: map<string, string>) {
    && NoneEmpty(files) && Consistent(files) && Fits(Flatten(files), limits, reading)
    && Stored(Flatten(files), limits.samplesPerRow, reading, store.samples, store.offsets)
    && store.spans == SpansOf(files) && |store.offsets| == |Flatten(files)| + 1
    && Paired(devices, addresses, files)
  }

  lemma ReachedOneMore<S>(files: seq<seq<Line>>, file: seq<Line>, limits: Limits, reading: Reading<S>, store: Store<S>, after: Store<S>,
                          devices: map<string, string>, addresses: map<string, string>)
    requires Reached(files, limits, reading, store, devices, addresses)
    requires file != [] && OneIdentity(file) && Fits(Flatten(files) + file, limits, reading)
    requires Stored(Flatten(files) + file, limits.samplesPerRow, reading, after.samples, after.offsets)
    requires |after.offsets| == |store.offsets| + |file|
    requires after.spans == store.spans + [Span(file[0].device, |store.offsets| - 1, |after.offsets| - 1)]
    requires Agrees(devices, addresses, file[0].device, file[0].address)
    ensures Reached(files + [file], limits, reading, after, devices[file[0].device := file[0].address], addresses[file[0].address := file[0].device])
  {
    hide Paired, Fits, Stored, OneIdentityUpTo, Flatten, SpansOf;
    NamesMore(files, file);
    PairedOneMore(devices, addresses, files, file);
    ConsistentMore(files, file);
    OffsetsOneMore(files, file);
    SpansOneMore(files, file);
  }

  lemma ConsistentMore(files: seq<seq<Line>>, file: seq<Line>)
    requires Consistent(files) && OneIdentity(file)
    ensures Consistent(files + [file])
  {
    hide OneIdentity;
  }

  lemma SpansOneMore(files: seq<seq<Line>>, file: seq<Line>)
    requires NoneEmpty(files) && file != [] && NoneEmpty(files + [file])
    ensures SpansOf(files + [file]) == SpansOf(files) + [Span(file[0].device, |Flatten(files)|, |Flatten(files)| + |file|)]
  {
    OffsetsOneMore(files, file);
    OffsetEnds(files);
    hide Flatten, Offsets;
    var all: seq<seq<Line>> := files + [file];
    assert all[|files|] == file && forall f :: 0 <= f < |files| ==> all[f] == files[f];
  }

  /** A file that is refused makes all the files unacceptable. */
  lemma AcceptablePart<S>(files: seq<seq<Line>>, i: nat, limits: Limits, reading: Reading<S>)
    requires Acceptable(files, limits, reading) && i < |files|
    ensures files[i] != [] && OneIdentity(files[i]) && Fits(Flatten(files[..i]) + files[i], limits, reading)
  {
    FlattenNext(files, i);
    FlattenPrefix(files, i + 1);
    var part := Flatten(files[..i + 1]);
    assert Flatten(files)[..|part|] == part;
    hide Flatten;
    FitsPrefix(Flatten(files), |part|, limits, reading);
  }

  method Compile<S>(files: seq<seq<Line>>, limits: Limits, reading: Reading<S>) returns (r: Result<Store<S>, AdapterError>)
    ensures r.Success? <==> Acceptable(files, limits, reading)
    ensures r.Success? ==>
              var rows := RowsOf(Flatten(files), limits.samplesPerRow, reading);
              r.value == Store(Flatten(rows), Offsets(rows), SpansOf(files))
  {
    hide Fits, Stored, OneIdentityUpTo, Samples, Paired, Agrees, Flatten, OneToOne;
    var samples: seq<S>, offsets: seq<nat>, spans: seq<Span> := [], [0], [];
    var devices: map<string, string>, addresses: map<string, string> := map[], map[];
    NothingReached(limits, reading);
    assert files[..0] == [];
    for i := 0 to |files|
      invariant Reached(files[..i], limits, reading, Store(samples, offsets, spans), devices, addresses)
    {
      var file := files[i];
      if Acceptable(files, limits, reading) {
        AcceptablePart(files, i, limits, reading);
        OneToOneAgrees(devices, addresses, files, i);
      }
      var read := ReadFile(Flatten(files[..i]), file, limits, reading, samples, offsets);
      if read.Failure? {
        return Failure(read.error);
      }
      var device, address := file[0].device, file[0].address;
      if !Agrees(devices, addresses, device, address) {
        return Failure(PublisherIdentityNotOneToOne);
      }
      var start, end := |offsets| - 1, |read.value.1| - 1;
      assert files[..i + 1] == files[..i] + [file];
      ReachedOneMore(files[..i], file, limits, reading, Store(samples, offsets, spans),
                     Store(read.value.0, read.value.1, spans + [Span(device, start, end)]), devices, addresses);
      samples, offsets, spans := read.value.0, read.value.1, spans + [Span(device, start, end)];
      devices, addresses := devices[device := address], addresses[address := device];
    }
    assert files[..|files|] == files;
    PairedMeansOneToOne(devices, addresses, files);
    r := Success(Store(samples, offsets, spans));
    WhatIsStored(Flatten(files), limits.samplesPerRow, reading, samples, offsets);
  }

  lemma WhatIsStored<S>(lines: seq<Line>, maximum: nat, reading: Reading<S>, samples: seq<S>, offsets: seq<nat>)
    requires Stored(lines, maximum, reading, samples, offsets)
    ensures samples == Flatten(RowsOf(lines, maximum, reading)) && offsets == Offsets(RowsOf(lines, maximum, reading))
  {
  }

  lemma NothingReached<S>(limits: Limits, reading: Reading<S>)
    ensures Reached([], limits, reading, Store([], [0], []), map[], map[])
  {
    assert RowsOf([], limits.samplesPerRow, reading) == [];
  }
}
