/** The identifier of a pair of observations: the same for both orders, and telling pairs apart. */
module ObservationPairs {
  import opened Wrappers
  import opened Text
  import opened RowOrders

  const MAX_SOURCE_SCHEMA_BYTES := 128
  const MAX_SOURCE_ID_BYTES := 512

  datatype Observation = Observation(schema: string, id: string, digest: string)

  datatype PairError = InvalidObservationSourceSchema | InvalidObservationSourceId | InvalidObservationContentDigest

  // ---- What an observation reference may be ----------------------------------------------------

  function Utf8Length(s: string): nat {
    if s == [] then 0
    else (if s[0] < 128 as char then 1 else if s[0] < 0x800 as char then 2 else if s[0] < 0x1_0000 as char then 3 else 4) + Utf8Length(s[1..])
  }

  predicate LowerOrDigit(c: char) {
    'a' <= c <= 'z' || '0' <= c <= '9'
  }

  predicate IsSchema(s: string) {
    && 0 < |s| <= 128 && LowerOrDigit(s[0])
    && forall i :: 0 < i < |s| ==> LowerOrDigit(s[i]) || s[i] == '.' || s[i] == '_' || s[i] == '-'
  }

  predicate IsControl(c: char) {
    c < 32 as char || 127 as char <= c <= 159 as char
  }

  function Check(o: Observation): Result<Observation, PairError> {
    if !IsSchema(o.schema) || Utf8Length(o.schema) > MAX_SOURCE_SCHEMA_BYTES then Failure(InvalidObservationSourceSchema)
    else if o.id == [] || Utf8Length(o.id) > MAX_SOURCE_ID_BYTES || exists i :: 0 <= i < |o.id| && IsControl(o.id[i]) then
      Failure(InvalidObservationSourceId)
    else if !IsDigest(o.digest) then Failure(InvalidObservationContentDigest)
    else Success(o)
  }

  /** Which references are accepted, limit by limit. */
  lemma AcceptedReference(o: Observation)
    ensures Check(o).Success? <==>
            && 1 <= |o.schema| <= 128
            && (forall c :: c in o.schema ==> 'a' <= c <= 'z' || '0' <= c <= '9' || c == '.' || c == '_' || c == '-')
            && o.schema[0] != '.' && o.schema[0] != '_' && o.schema[0] != '-'
            && 1 <= Utf8Length(o.id) <= 512
            && (forall c :: c in o.id ==> 32 <= c as int <= 126 || c as int >= 160)
            && |o.digest| == 64 && forall c :: c in o.digest ==> 'a' <= c <= 'f' || '0' <= c <= '9'
    ensures Check(o).Success? ==> Check(o).value == o
  {
    if IsSchema(o.schema) {
      PlainLength(o.schema);
    }
    EmptyLength(o.id);
    forall i | 0 <= i < |o.schema| ensures o.schema[i] in o.schema {
    }
    forall i | 0 <= i < |o.id| ensures o.id[i] in o.id {
    }
    forall i | 0 <= i < |o.digest| ensures o.digest[i] in o.digest {
    }
  }

  lemma {:induction false} PlainLength(s: string)
    requires forall i :: 0 <= i < |s| ==> s[i] < 128 as char
    ensures Utf8Length(s) == |s|
  {
    if s != [] {
      PlainLength(s[1..]);
    }
  }

  lemma EmptyLength(s: string)
    ensures Utf8Length(s) == 0 <==> s == []
  {
  }

  /** A character takes as many bytes as its code needs. */
  lemma OneCharacter(c: char)
    ensures Utf8Length([c]) == if c as int <= 127 then 1 else if c as int <= 2047 then 2 else if c as int <= 65535 then 3 else 4
  {
    assert [c][1..] == [];
  }

  lemma {:induction false} LengthsAdd(s: string, t: string)
    ensures Utf8Length(s + t) == Utf8Length(s) + Utf8Length(t)
  {
    if s == [] {
      assert s + t == t;
    } else {
      assert (s + t)[1..] == s[1..] + t;
      LengthsAdd(s[1..], t);
    }
  }

  // ---- The text that is hashed ------------------------------------------------------------------

  const NUL: char := 0 as char

  function Values(o: Observation): seq<string> {
    [o.schema, o.id, o.digest]
  }

  function Ended(values: seq<string>): string {
    if values == [] then [] else values[0] + [NUL] + Ended(values[1..])
  }

  predicate Before(a: Observation, b: Observation) {
    FieldsLe(Values(a), Values(b))
  }

  /** The two observations in order. */
  function InOrder(a: Observation, b: Observation): seq<Observation> {
    if Before(a, b) then [a, b] else [b, a]
  }

  function PairText(domain: string, a: Observation, b: Observation): string {
    var pair := InOrder(a, b);
    domain + Ended(Values(pair[0]) + Values(pair[1]))
  }

  // ---- Order does not matter, and the pair can be read back --------------------------------------

  lemma OrderIsIrrelevant(a: Observation, b: Observation)
    ensures InOrder(a, b) == InOrder(b, a)
  {
    FieldsOrder(Values(a), Values(b), Values(a));
    assert Values(a) == Values(b) ==> a == b by {
      assert Values(a)[0] == a.schema && Values(a)[1] == a.id && Values(a)[2] == a.digest;
    }
  }

  ghost predicate Unended(values: seq<string>) {
    forall i :: 0 <= i < |values| ==> NUL !in values[i]
  }

  lemma FirstEnd(a: string, b: string, x: string, y: string)
    requires NUL !in a && NUL !in b && a + [NUL] + x == b + [NUL] + y
    ensures a == b && x == y
  {
    var whole := a + [NUL] + x;
    NoEndInside(a, x);
    NoEndInside(b, y);
    assert |a| == |b|;
    assert a == whole[..|a|] && b == whole[..|a|];
    assert x == whole[|a| + 1..] && y == whole[|a| + 1..];
  }

  lemma NoEndInside(a: string, x: string)
    requires NUL !in a
    ensures var whole := a + [NUL] + x; whole[|a|] == NUL && forall k :: 0 <= k < |a| ==> whole[k] != NUL
  {
    forall k | 0 <= k < |a| ensures (a + [NUL] + x)[k] != NUL {
      assert (a + [NUL] + x)[k] == a[k];
    }
  }

  lemma {:induction false} EndedIsReadable(a: seq<string>, b: seq<string>)
    requires Unended(a) && Unended(b) && Ended(a) == Ended(b)
    ensures a == b
    decreases |a|
  {
    if a != [] && b != [] {
      FirstEnd(a[0], b[0], Ended(a[1..]), Ended(b[1..]));
      EndedIsReadable(a[1..], b[1..]);
      assert a == [a[0]] + a[1..] && b == [b[0]] + b[1..];
    }
  }

  lemma CheckedIsUnended(o: Observation)
    requires Check(o).Success?
    ensures Unended(Values(o))
  {
    forall c | c in o.id ensures c != NUL {
      var i :| 0 <= i < |o.id| && o.id[i] == c;
      assert !IsControl(o.id[i]);
    }
  }

  lemma TextOfPair(domain: string, a: Observation, b: Observation, c: Observation, d: Observation)
    requires Check(a).Success? && Check(b).Success? && Check(c).Success? && Check(d).Success?
    requires PairText(domain, a, b) == PairText(domain, c, d)
    ensures InOrder(a, b) == InOrder(c, d)
  {
    hide Check;
    var p, q := InOrder(a, b), InOrder(c, d);
    CheckedIsUnended(p[0]);
    CheckedIsUnended(p[1]);
    CheckedIsUnended(q[0]);
    CheckedIsUnended(q[1]);
    var v, w := Values(p[0]) + Values(p[1]), Values(q[0]) + Values(q[1]);
    var s, t := domain + Ended(v), domain + Ended(w);
    assert s[|domain|..] == Ended(v) && t[|domain|..] == Ended(w);
    EndedIsReadable(v, w);
    assert v[..3] == Values(p[0]) && v[3..] == Values(p[1]) && w[..3] == Values(q[0]) && w[3..] == Values(q[1]);
    SameValues(p[0], q[0]);
    SameValues(p[1], q[1]);
  }

  lemma SameValues(a: Observation, b: Observation)
    requires Values(a) == Values(b)
    ensures a == b
  {
    assert Values(a)[0] == a.schema && Values(a)[1] == a.id && Values(a)[2] == a.digest;
  }

  /** The text that is hashed is the same exactly for the same unordered pair. */
  lemma TextTellsPairs(domain: string, a: Observation, b: Observation, c: Observation, d: Observation)
    requires Check(a).Success? && Check(b).Success? && Check(c).Success? && Check(d).Success?
    ensures PairText(domain, a, b) == PairText(domain, c, d) <==> multiset{a, b} == multiset{c, d}
  {
    hide Check;
    OrderIsIrrelevant(a, b);
    if PairText(domain, a, b) == PairText(domain, c, d) {
      TextOfPair(domain, a, b, c, d);
      assert multiset(InOrder(a, b)) == multiset{a, b} && multiset(InOrder(c, d)) == multiset{c, d};
    }
    if multiset{a, b} == multiset{c, d} {
      assert a in multiset{c, d} && b in multiset{c, d} && c in multiset{a, b} && d in multiset{a, b};
      assert (a == c && b == d) || (a == d && b == c);
    }
  }

  /** The references as tuples, by the first part in which they differ. */
  ghost predicate Lesser(a: Observation, b: Observation) {
    if a.schema != b.schema then Alphabetical(a.schema, b.schema)
    else if a.id != b.id then Alphabetical(a.id, b.id)
    else Alphabetical(a.digest, b.digest)
  }

  lemma LesserComesFirst(a: Observation, b: Observation)
    requires Lesser(a, b)
    ensures InOrder(a, b) == [a, b]
  {
    StringLeIsAlphabetical(a.schema, b.schema);
    StringLeIsAlphabetical(a.id, b.id);
    StringLeIsAlphabetical(a.digest, b.digest);
    hide StringLe, Alphabetical;
    assert Values(a)[1..] == [a.id, a.digest] && Values(b)[1..] == [b.id, b.digest];
    assert [a.id, a.digest][1..] == [a.digest] && [b.id, b.digest][1..] == [b.digest];
    assert [a.digest][1..] == [] && [b.digest][1..] == [];
    assert FieldsLe([], []);
    assert FieldsLe([a.digest], [b.digest]) == if a.digest == b.digest then true else StringLe(a.digest, b.digest);
    assert FieldsLe([a.id, a.digest], [b.id, b.digest]) == if a.id == b.id then FieldsLe([a.digest], [b.digest]) else StringLe(a.id, b.id);
  }

  /** The text in full: the lesser reference first, every value closed by a zero byte. */
  lemma TextIsSpelledOut(domain: string, a: Observation, b: Observation)
    requires Lesser(a, b)
    ensures PairText(domain, a, b) ==
            domain + (a.schema + "\0" + (a.id + "\0" + (a.digest + "\0" + (b.schema + "\0" + (b.id + "\0" + (b.digest + "\0"))))))
  {
    hide Lesser;
    LesserComesFirst(a, b);
    var v := Values(a) + Values(b);
    assert v == [a.schema, a.id, a.digest, b.schema, b.id, b.digest];
    EndedFirst(a.schema, [a.id, a.digest, b.schema, b.id, b.digest]);
    EndedFirst(a.id, [a.digest, b.schema, b.id, b.digest]);
    EndedFirst(a.digest, [b.schema, b.id, b.digest]);
    EndedFirst(b.schema, [b.id, b.digest]);
    EndedFirst(b.id, [b.digest]);
    EndedFirst(b.digest, []);
    hide Ended, InOrder;
    assert [a.schema] + [a.id, a.digest, b.schema, b.id, b.digest] == v;
    assert [a.id] + [a.digest, b.schema, b.id, b.digest] == [a.id, a.digest, b.schema, b.id, b.digest];
    assert [a.digest] + [b.schema, b.id, b.digest] == [a.digest, b.schema, b.id, b.digest];
    assert [b.schema] + [b.id, b.digest] == [b.schema, b.id, b.digest];
    assert [b.id] + [b.digest] == [b.id, b.digest] && [b.digest] + [] == [b.digest];
    assert b.digest + "\0" + [] == b.digest + "\0";
  }

  lemma EndedFirst(value: string, more: seq<string>)
    ensures Ended([value] + more) == value + "\0" + Ended(more)
    ensures Ended([]) == []
  {
    assert ([value] + more)[1..] == more;
    assert [NUL] == "\0";
  }

  // ---- The loop ------------------------------------------------------------------------------------

  function PairId(domain: string, hash: string -> string, left: Observation, right: Observation): Result<string, PairError> {
    var l, r := Check(left), Check(right);
    if l.Failure? then Failure(l.error)
    else if r.Failure? then Failure(r.error)
    else Success("event-pair-" + hash(PairText(domain, left, right)))
  }

  lemma {:induction false} EndedAppend(values: seq<string>, more: seq<string>)
    ensures Ended(values + more) == Ended(values) + Ended(more)
    decreases |values|
  {
    if values == [] {
      assert values + more == more;
    } else {
      assert (values + more)[1..] == values[1..] + more;
      EndedAppend(values[1..], more);
    }
  }

  method ObservationPairId(domain: string, hash: string -> string, left: Observation, right: Observation) returns (r: Result<string, PairError>)
    ensures r == PairId(domain, hash, left, right)
  {
    var l, o := Check(left), Check(right);
    if l.Failure? {
      return Failure(l.error);
    }
    if o.Failure? {
      return Failure(o.error);
    }
    var digested, pair := domain, InOrder(l.value, o.value);
    for i := 0 to 2
      invariant digested == domain + (if i == 0 then [] else if i == 1 then Ended(Values(pair[0])) else Ended(Values(pair[0])) + Ended(Values(pair[1])))
    {
      digested := AddValues(digested, Values(pair[i]));
    }
    EndedAppend(Values(pair[0]), Values(pair[1]));
    r := Success("event-pair-" + hash(digested));
  }

  lemma EndedOneMore(values: seq<string>, value: string, before: string)
    ensures before + Ended(values + [value]) == before + Ended(values) + value + [NUL]
  {
    EndedAppend(values, [value]);
    assert Ended([value]) == value + [NUL] + Ended([]);
    assert Ended([value]) == value + [NUL];
    assert before + (Ended(values) + (value + [NUL])) == before + Ended(values) + value + [NUL];
  }

  method AddValues(digested: string, values: seq<string>) returns (r: string)
    ensures r == digested + Ended(values)
  {
    r := digested;
    for j := 0 to |values|
      invariant r == digested + Ended(values[..j])
    {
      EndedOneMore(values[..j], values[j], digested);
      assert values[..j + 1] == values[..j] + [values[j]];
      r := r + values[j] + [NUL];
    }
    assert values[..|values|] == values;
  }
}
