/** The patterns of the source as patterns, and that the predicates used here are what they match in full. */
module Patterns {
  import Text
  import ComplexTokens
  import ObservationPairs
  import RowSelection

  /** A regular expression; `Class` is one character from some ranges. */
  datatype Pattern =
    | Class(ranges: seq<(char, char)>)
    | Both(first: Pattern, second: Pattern)
    | Either(left: Pattern, right: Pattern)
    | Maybe(part: Pattern)
    | Many(part: Pattern)                              // once or more often
    | Repeat(part: Pattern, low: nat, high: nat)

  ghost predicate Matches(p: Pattern, s: string)
    decreases p, |s|, 0
  {
    match p
    case Class(ranges) => |s| == 1 && InRanges(ranges, s[0])
    case Both(first, second) => exists k :: 0 <= k <= |s| && Matches(first, s[..k]) && Matches(second, s[k..])
    case Either(left, right) => Matches(left, s) || Matches(right, s)
    case Maybe(part) => s == [] || Matches(part, s)
    case Many(part) => Matches(part, s) || exists k :: 0 < k < |s| && Matches(part, s[..k]) && Matches(p, s[k..])
    case Repeat(part, low, high) => Times(part, s, low, high)
  }

  ghost predicate Times(part: Pattern, s: string, low: nat, high: nat)
    decreases part, |s|, 1
  {
    || (low == 0 && s == [])
    || (high > 0 && exists k :: 0 < k <= |s| && Matches(part, s[..k]) && Times(part, s[k..], if low > 0 then low - 1 else 0, high - 1))
  }

  ghost predicate InRanges(ranges: seq<(char, char)>, c: char) {
    exists i :: 0 <= i < |ranges| && ranges[i].0 <= c <= ranges[i].1
  }

  ghost predicate AllInRanges(ranges: seq<(char, char)>, s: string) {
    forall i :: 0 <= i < |s| ==> InRanges(ranges, s[i])
  }

  /** Characters of one class, repeated. */
  lemma {:induction false} ClassRepeated(ranges: seq<(char, char)>, s: string, low: nat, high: nat)
    requires low <= high
    ensures Times(Class(ranges), s, low, high) <==> low <= |s| <= high && AllInRanges(ranges, s)
    decreases high
  {
    hide InRanges;
    if s != [] && high > 0 {
      var less: nat := if low > 0 then low - 1 else 0;
      ClassRepeated(ranges, s[1..], less, high - 1);
      assert s[..1] == [s[0]];
      if Times(Class(ranges), s, low, high) {
        var k :| 0 < k <= |s| && Matches(Class(ranges), s[..k]) && Times(Class(ranges), s[k..], less, high - 1);
        assert k == 1;
        AllFirst(ranges, s);
      }
      if low <= |s| <= high && AllInRanges(ranges, s) {
        AllFirst(ranges, s);
        assert Matches(Class(ranges), s[..1]) && Times(Class(ranges), s[1..], less, high - 1);
      }
    }
  }

  lemma AllFirst(ranges: seq<(char, char)>, s: string)
    requires s != []
    ensures AllInRanges(ranges, s) <==> InRanges(ranges, s[0]) && AllInRanges(ranges, s[1..])
  {
    hide InRanges;
    if InRanges(ranges, s[0]) && AllInRanges(ranges, s[1..]) {
      forall i | 0 <= i < |s| ensures InRanges(ranges, s[i]) {
        assert i > 0 ==> s[1..][i - 1] == s[i];
      }
    }
  }

  /** One character of one class and then others of another. */
  lemma FirstAndRest(first: seq<(char, char)>, rest: seq<(char, char)>, s: string, high: nat)
    ensures Matches(Both(Class(first), Repeat(Class(rest), 0, high)), s) <==>
            1 <= |s| <= high + 1 && InRanges(first, s[0]) && AllInRanges(rest, s[1..])
  {
    hide InRanges, AllInRanges;
    forall k | 0 <= k <= |s| ensures Matches(Class(first), s[..k]) ==> k == 1 {
    }
    if s != [] {
      assert s[..1] == [s[0]];
      ClassRepeated(rest, s[1..], 0, high);
      assert Matches(Class(first), s[..1]) <==> InRanges(first, s[0]);
      assert Matches(Repeat(Class(rest), 0, high), s[1..]) <==> Times(Class(rest), s[1..], 0, high);
    }
  }

  // ---- Identifiers and digests -----------------------------------------------------------

  /** `[a-f0-9]{64}` */
  lemma DigestPattern(s: string)
    ensures Text.IsDigest(s) <==> Matches(Repeat(Class([('a', 'f'), ('0', '9')]), 64, 64), s)
  {
    var ranges := [('a', 'f'), ('0', '9')];
    ClassRepeated(ranges, s, 64, 64);
    forall c ensures InRanges(ranges, c) <==> 'a' <= c <= 'f' || '0' <= c <= '9' {
      TwoRanges(ranges, c);
    }
  }

  lemma TwoRanges(ranges: seq<(char, char)>, c: char)
    requires |ranges| == 2
    ensures InRanges(ranges, c) <==> ranges[0].0 <= c <= ranges[0].1 || ranges[1].0 <= c <= ranges[1].1
  {
  }

  /** `[a-z0-9][a-z0-9._-]{0,127}` */
  lemma SchemaPattern(s: string)
    ensures ObservationPairs.IsSchema(s) <==>
            Matches(Both(Class([('a', 'z'), ('0', '9')]), Repeat(Class([('a', 'z'), ('0', '9'), ('.', '.'), ('_', '_'), ('-', '-')]), 0, 127)), s)
  {
    var first := [('a', 'z'), ('0', '9')];
    var rest := [('a', 'z'), ('0', '9'), ('.', '.'), ('_', '_'), ('-', '-')];
    FirstAndRest(first, rest, s, 127);
    forall c ensures InRanges(first, c) <==> ObservationPairs.LowerOrDigit(c) {
      TwoRanges(first, c);
    }
    forall c ensures InRanges(rest, c) <==> ObservationPairs.LowerOrDigit(c) || c == '.' || c == '_' || c == '-' {
      FiveRanges(rest, c);
    }
    hide InRanges;
    if 1 <= |s| {
      assert forall i :: 0 < i < |s| ==> s[i] == s[1..][i - 1];
      assert forall i :: 0 <= i < |s[1..]| ==> s[1..][i] == s[i + 1];
    }
  }

  lemma ThreeRanges(ranges: seq<(char, char)>, c: char)
    requires |ranges| == 3
    ensures InRanges(ranges, c) <==>
            ranges[0].0 <= c <= ranges[0].1 || ranges[1].0 <= c <= ranges[1].1 || ranges[2].0 <= c <= ranges[2].1
  {
  }

  lemma FiveRanges(ranges: seq<(char, char)>, c: char)
    requires |ranges| == 5
    ensures InRanges(ranges, c) <==>
            || ranges[0].0 <= c <= ranges[0].1 || ranges[1].0 <= c <= ranges[1].1 || ranges[2].0 <= c <= ranges[2].1
            || ranges[3].0 <= c <= ranges[3].1 || ranges[4].0 <= c <= ranges[4].1
  {
  }

  lemma SevenRanges(ranges: seq<(char, char)>, c: char)
    requires |ranges| == 7
    ensures InRanges(ranges, c) <==>
            || ranges[0].0 <= c <= ranges[0].1 || ranges[1].0 <= c <= ranges[1].1 || ranges[2].0 <= c <= ranges[2].1
            || ranges[3].0 <= c <= ranges[3].1 || ranges[4].0 <= c <= ranges[4].1 || ranges[5].0 <= c <= ranges[5].1 || ranges[6].0 <= c <= ranges[6].1
  {
  }

  /** `[A-Za-z0-9][A-Za-z0-9_.:-]{0,127}` */
  lemma IdentifierPattern(s: string)
    ensures RowSelection.IsIdentifier(s) <==>
            Matches(Both(Class([('A', 'Z'), ('a', 'z'), ('0', '9')]),
                         Repeat(Class([('A', 'Z'), ('a', 'z'), ('0', '9'), ('_', '_'), ('.', '.'), (':', ':'), ('-', '-')]), 0, 127)), s)
  {
    var first := [('A', 'Z'), ('a', 'z'), ('0', '9')];
    var rest := [('A', 'Z'), ('a', 'z'), ('0', '9'), ('_', '_'), ('.', '.'), (':', ':'), ('-', '-')];
    FirstAndRest(first, rest, s, 127);
    forall c ensures InRanges(first, c) <==> 'A' <= c <= 'Z' || 'a' <= c <= 'z' || '0' <= c <= '9' {
      ThreeRanges(first, c);
    }
    forall c ensures InRanges(rest, c) <==> RowSelection.IsIdentifierCharacter(c) {
      SevenRanges(rest, c);
    }
    hide InRanges;
    if 1 <= |s| {
      assert forall i :: 0 < i < |s| ==> s[i] == s[1..][i - 1];
      assert forall i :: 0 <= i < |s[1..]| ==> s[1..][i] == s[i + 1];
    }
  }

  // ---- Complex elements -------------------------------------------------------------------

  function Only(c: char): Pattern {
    Class([(c, c)])
  }

  function Digit(): Pattern {
    Class([('0', '9')])
  }

  function Sign(): Pattern {
    Class([('+', '+'), ('-', '-')])
  }

  /** `[0-9]+\.?[0-9]*|\.[0-9]+` */
  function MantissaPattern(): Pattern {
    Either(Both(Many(Digit()), Both(Maybe(Only('.')), Maybe(Many(Digit())))), Both(Only('.'), Many(Digit())))
  }

  /** `[eE][+-]?[0-9]+` */
  function ExponentPattern(): Pattern {
    Both(Class([('e', 'e'), ('E', 'E')]), Both(Maybe(Sign()), Many(Digit())))
  }

  /** `nan|inf|(?:...)(?:...)?` */
  function NumberPattern(): Pattern {
    Either(Either(Both(Only('n'), Both(Only('a'), Only('n'))), Both(Only('i'), Both(Only('n'), Only('f')))),
           Both(MantissaPattern(), Maybe(ExponentPattern())))
  }

  /** `\(?[+-]?` and a number */
  function RealPattern(): Pattern {
    Both(Maybe(Only('(')), Both(Maybe(Sign()), NumberPattern()))
  }

  /** `[+-]`, a number and `j\)?` */
  function ImagPattern(): Pattern {
    Both(Sign(), Both(NumberPattern(), Both(Only('j'), Maybe(Only(')')))))
  }

  function ElementPattern(): Pattern {
    Both(RealPattern(), ImagPattern())
  }

  lemma OnlyMatches(c: char, s: string)
    ensures Matches(Only(c), s) <==> s == [c]
  {
    if |s| == 1 {
      assert InRanges([(c, c)], s[0]) <==> [(c, c)][0].0 <= s[0] <= [(c, c)][0].1;
    }
  }

  lemma DigitMatches(s: string)
    ensures Matches(Digit(), s) <==> |s| == 1 && '0' <= s[0] <= '9'
  {
    if |s| == 1 {
      assert InRanges([('0', '9')], s[0]) <==> [('0', '9')][0].0 <= s[0] <= [('0', '9')][0].1;
    }
  }

  lemma SignMatches(s: string)
    ensures Matches(Sign(), s) <==> |s| == 1 && ComplexTokens.IsSign(s[0])
  {
    if |s| == 1 {
      TwoRanges([('+', '+'), ('-', '-')], s[0]);
    }
  }

  /** A pattern that matches exactly one character, in front of another. */
  lemma FrontMatches(first: Pattern, second: Pattern, s: string)
    requires forall t :: Matches(first, t) ==> |t| == 1
    ensures Matches(Both(first, second), s) <==> s != [] && Matches(first, s[..1]) && Matches(second, s[1..])
  {
  }

  lemma MaybeOne(first: Pattern, t: string)
    requires (forall u :: Matches(first, u) ==> |u| == 1) && Matches(Maybe(first), t)
    ensures t == [] || (|t| == 1 && Matches(first, t))
  {
  }

  /** The same if it may be missing. */
  lemma MaybeFront(first: Pattern, second: Pattern, s: string)
    requires forall t :: Matches(first, t) ==> |t| == 1
    ensures Matches(Both(Maybe(first), second), s) <==> Matches(second, s) || (s != [] && Matches(first, s[..1]) && Matches(second, s[1..]))
  {
    assert s[..0] == [] && s[0..] == s;
    assert Matches(Maybe(first), s[..0]);
    if Matches(Both(Maybe(first), second), s) {
      var k :| 0 <= k <= |s| && Matches(Maybe(first), s[..k]) && Matches(second, s[k..]);
      MaybeOne(first, s[..k]);
    }
    if s != [] && Matches(first, s[..1]) && Matches(second, s[1..]) {
      assert Matches(Maybe(first), s[..1]);
    }
  }

  lemma {:induction false} DigitsMatch(s: string)
    ensures Matches(Many(Digit()), s) <==> ComplexTokens.Digits(s)
    decreases |s|
  {
    DigitMatches(s);
    if |s| > 1 {
      DigitsMatch(s[1..]);
      DigitMatches(s[..1]);
      forall k | 0 < k < |s| && Matches(Digit(), s[..k]) ensures k == 1 {
        DigitMatches(s[..k]);
      }
      hide Matches;
      ManyMatches(s);
      if ComplexTokens.Digits(s[1..]) && '0' <= s[0] <= '9' {
        assert forall i :: 0 < i < |s| ==> s[i] == s[1..][i - 1];
      }
    }
  }

  lemma ManyMatches(s: string)
    requires |s| > 1 && forall k | 0 < k < |s| && Matches(Digit(), s[..k]) :: k == 1
    ensures Matches(Many(Digit()), s) <==> Matches(Digit(), s[..1]) && Matches(Many(Digit()), s[1..])
  {
    DigitMatches(s);
    if Matches(Many(Digit()), s) {
      var k :| 0 < k < |s| && Matches(Digit(), s[..k]) && Matches(Many(Digit()), s[k..]);
    }
  }

  /** What may follow the leading digits: a dot, more digits, or both. */
  lemma TailMatches(s: string)
    ensures Matches(Both(Maybe(Only('.')), Maybe(Many(Digit()))), s) <==>
            s == [] || ComplexTokens.Digits(s) || (s[0] == '.' && (s[1..] == [] || ComplexTokens.Digits(s[1..])))
  {
    forall t ensures Matches(Only('.'), t) <==> t == ['.'] {
      OnlyMatches('.', t);
    }
    MaybeFront(Only('.'), Maybe(Many(Digit())), s);
    DigitsMatch(s);
    if s != [] {
      DigitsMatch(s[1..]);
      assert s[..1] == [s[0]];
    }
  }

  lemma DigitsJoin(a: string, b: string)
    requires ComplexTokens.Digits(a) && (b == [] || ComplexTokens.Digits(b))
    ensures ComplexTokens.Digits(a + b)
  {
  }

  lemma MantissaMatches(s: string)
    ensures Matches(MantissaPattern(), s) <==> ComplexTokens.Mantissa(s)
  {
    LeadingDigits(s);
    forall t ensures Matches(Only('.'), t) <==> t == ['.'] {
      OnlyMatches('.', t);
    }
    FrontMatches(Only('.'), Many(Digit()), s);
    hide ComplexTokens.Digits;
    NoDigitsInNothing();
    if s != [] {
      DigitsMatch(s[1..]);
      assert s[..1] == [s[0]];
    }
    LedIsMantissa(s);
    hide Led, ComplexTokens.Mantissa;
  }

  lemma LedIsMantissa(s: string)
    ensures ComplexTokens.Mantissa(s) <==> Led(s) || (|s| > 1 && s[0] == '.' && ComplexTokens.Digits(s[1..]))
  {
    hide ComplexTokens.Digits;
    if exists k :: 0 < k < |s| && s[k] == '.' && ComplexTokens.Digits(s[..k]) && (s[k + 1..] == [] || ComplexTokens.Digits(s[k + 1..])) {
      var k :| 0 < k < |s| && s[k] == '.' && ComplexTokens.Digits(s[..k]) && (s[k + 1..] == [] || ComplexTokens.Digits(s[k + 1..]));
      DotIs(s, k);
    }
    if k :| 0 < k < |s| && DotAt(s, k) {
      assert s[k] == '.' && ComplexTokens.Digits(s[..k]) && (s[k + 1..] == [] || ComplexTokens.Digits(s[k + 1..]));
    }
  }

  lemma NoDigitsInNothing()
    ensures !ComplexTokens.Digits([])
  {
  }

  lemma BothMatch(first: Pattern, second: Pattern, s: string, k: nat)
    requires k <= |s| && Matches(first, s[..k]) && Matches(second, s[k..])
    ensures Matches(Both(first, second), s)
  {
  }

  /** Digits up to `k`, and from there what may follow. */
  ghost predicate LeadUpTo(s: string, k: nat)
    requires k <= |s|
  {
    && ComplexTokens.Digits(s[..k])
    && (k == |s| || ComplexTokens.Digits(s[k..]) || (s[k] == '.' && (s[k + 1..] == [] || ComplexTokens.Digits(s[k + 1..]))))
  }

  lemma LeadMatches(s: string, k: nat)
    requires k <= |s|
    ensures Matches(Many(Digit()), s[..k]) && Matches(Both(Maybe(Only('.')), Maybe(Many(Digit()))), s[k..]) <==> LeadUpTo(s, k)
  {
    DigitsMatch(s[..k]);
    TailMatches(s[k..]);
    hide Matches;
    assert k < |s| ==> s[k..][0] == s[k] && s[k..][1..] == s[k + 1..];
  }

  /** Digits, and perhaps a dot with digits before it and perhaps after it. */
  ghost predicate Led(s: string) {
    ComplexTokens.Digits(s) || exists k :: 0 < k < |s| && DotAt(s, k)
  }

  ghost predicate DotAt(s: string, k: nat)
    requires k < |s|
  {
    s[k] == '.' && ComplexTokens.Digits(s[..k]) && (s[k + 1..] == [] || ComplexTokens.Digits(s[k + 1..]))
  }

  lemma LeadIsLed(s: string, k: nat)
    requires k <= |s| && LeadUpTo(s, k)
    ensures Led(s)
  {
    hide DotAt;
    if k == |s| || ComplexTokens.Digits(s[k..]) {
      DigitsJoin(s[..k], s[k..]);
      assert s == s[..k] + s[k..];
    } else {
      assert DotAt(s, k) by {
        DotIs(s, k);
      }
      SomeDigits(s[..k]);
    }
  }

  lemma SomeDigits(s: string)
    ensures ComplexTokens.Digits(s) ==> |s| > 0
  {
  }

  lemma DotIs(s: string, k: nat)
    requires k < |s| && s[k] == '.' && ComplexTokens.Digits(s[..k]) && (s[k + 1..] == [] || ComplexTokens.Digits(s[k + 1..]))
    ensures DotAt(s, k)
  {
  }

  lemma LedIsLead(s: string) returns (k: nat)
    requires Led(s)
    ensures k <= |s| && LeadUpTo(s, k)
  {
    hide ComplexTokens.Digits;
    if ComplexTokens.Digits(s) {
      k := |s|;
      assert s[..k] == s;
    } else {
      k :| 0 < k < |s| && DotAt(s, k);
    }
  }

  lemma LeadingDigits(s: string)
    ensures Matches(Both(Many(Digit()), Both(Maybe(Only('.')), Maybe(Many(Digit())))), s) <==> Led(s)
  {
    var first, tail := Many(Digit()), Both(Maybe(Only('.')), Maybe(Many(Digit())));
    if Matches(Both(first, tail), s) {
      var k :| 0 <= k <= |s| && Matches(first, s[..k]) && Matches(tail, s[k..]);
      hide *;
      LeadMatches(s, k);
      LeadIsLed(s, k);
    }
    hide *;
    if Led(s) {
      var k := LedIsLead(s);
      LeadMatches(s, k);
      BothMatch(first, tail, s, k);
    }
  }

  lemma ExponentMatches(s: string)
    ensures Matches(ExponentPattern(), s) <==> ComplexTokens.Exponent(s)
  {
    var e := Class([('e', 'e'), ('E', 'E')]);
    forall t ensures Matches(e, t) <==> |t| == 1 && (t[0] == 'e' || t[0] == 'E') {
      if |t| == 1 {
        TwoRanges([('e', 'e'), ('E', 'E')], t[0]);
      }
    }
    forall t ensures Matches(Sign(), t) <==> |t| == 1 && ComplexTokens.IsSign(t[0]) {
      SignMatches(t);
    }
    FrontMatches(e, Both(Maybe(Sign()), Many(Digit())), s);
    hide Matches;
    if s != [] {
      MaybeFront(Sign(), Many(Digit()), s[1..]);
      DigitsMatch(s[1..]);
      if |s| > 1 {
        DigitsMatch(s[1..][1..]);
        assert s[1..][1..] == s[2..] && s[1..][..1] == [s[1]];
      }
    }
  }

  lemma ThreeMatch(a: char, b: char, c: char, s: string)
    ensures Matches(Both(Only(a), Both(Only(b), Only(c))), s) <==> s == [a, b, c]
  {
    forall x, t ensures Matches(Only(x), t) <==> t == [x] {
      OnlyMatches(x, t);
    }
    FrontMatches(Only(a), Both(Only(b), Only(c)), s);
    if s != [] {
      FrontMatches(Only(b), Only(c), s[1..]);
    }
    hide Matches;
    if |s| == 3 {
      assert s[1..][1..] == [s[2]] && s[1..][..1] == [s[1]] && s[..1] == [s[0]];
    }
    if s != [] && s[..1] == [a] && s[1..] != [] && s[1..][..1] == [b] && s[1..][1..] == [c] {
      assert |s| == 3;
      assert s[0] == s[..1][0] && s[1] == s[1..][..1][0] && s[2] == s[1..][1..][0];
    }
  }

  lemma NumberMatches(s: string)
    ensures Matches(NumberPattern(), s) <==> ComplexTokens.IsNumber(s)
  {
    ThreeMatch('n', 'a', 'n', s);
    ThreeMatch('i', 'n', 'f', s);
    forall t ensures Matches(MantissaPattern(), t) <==> ComplexTokens.Mantissa(t) {
      MantissaMatches(t);
    }
    forall t ensures Matches(ExponentPattern(), t) <==> ComplexTokens.Exponent(t) {
      ExponentMatches(t);
    }
    hide ComplexTokens.Mantissa, ComplexTokens.Exponent;
    WithExponent(s);
    assert "nan" == ['n', 'a', 'n'] && "inf" == ['i', 'n', 'f'];
  }

  lemma WithExponent(s: string)
    ensures Matches(Both(MantissaPattern(), Maybe(ExponentPattern())), s) <==>
            ComplexTokens.Mantissa(s) || exists k :: 0 < k < |s| && ComplexTokens.Mantissa(s[..k]) && ComplexTokens.Exponent(s[k..])
  {
    assert s[..|s|] == s && s[|s|..] == [];
    forall k | 0 <= k <= |s|
      ensures Matches(MantissaPattern(), s[..k]) && Matches(Maybe(ExponentPattern()), s[k..]) <==>
              ComplexTokens.Mantissa(s[..k]) && (k == |s| || ComplexTokens.Exponent(s[k..]))
      ensures ComplexTokens.Mantissa(s[..k]) ==> k > 0
    {
      MantissaMatches(s[..k]);
      ExponentMatches(s[k..]);
    }
  }

  /** A number begins with neither a sign nor a bracket. */
  lemma NumberBegins(s: string)
    requires ComplexTokens.IsNumber(s)
    ensures s != [] && !ComplexTokens.IsSign(s[0]) && s[0] != '('
  {
    if s != "nan" && s != "inf" && !ComplexTokens.Mantissa(s) {
      var k :| 0 < k < |s| && ComplexTokens.Mantissa(s[..k]) && ComplexTokens.Exponent(s[k..]);
      MantissaBegins(s[..k]);
    } else if ComplexTokens.Mantissa(s) {
      MantissaBegins(s);
    }
  }

  lemma MantissaBegins(s: string)
    requires ComplexTokens.Mantissa(s)
    ensures s != [] && !ComplexTokens.IsSign(s[0]) && s[0] != '('
  {
    if k :| 0 < k < |s| && s[k] == '.' && ComplexTokens.Digits(s[..k]) {
      assert s[0] == s[..k][0];
    }
  }

  /** A number behind perhaps a sign. */
  lemma SignedMatches(s: string)
    ensures Matches(Both(Maybe(Sign()), NumberPattern()), s) <==> ComplexTokens.IsNumber(ComplexTokens.Unsigned(s))
    ensures ComplexTokens.IsNumber(ComplexTokens.Unsigned(s)) ==> s != [] && s[0] != '('
  {
    forall t ensures Matches(Sign(), t) <==> |t| == 1 && ComplexTokens.IsSign(t[0]) {
      SignMatches(t);
    }
    MaybeFront(Sign(), NumberPattern(), s);
    NumberMatches(s);
    hide Matches, ComplexTokens.IsNumber;
    if s != [] {
      NumberMatches(s[1..]);
      assert s[..1] == [s[0]];
    }
    if ComplexTokens.IsNumber(s) {
      NumberBegins(s);
    }
    if ComplexTokens.IsNumber(ComplexTokens.Unsigned(s)) {
      NumberBegins(ComplexTokens.Unsigned(s));
    }
  }

  lemma RealMatches(s: string)
    ensures Matches(RealPattern(), s) <==> ComplexTokens.IsReal(s)
  {
    forall t ensures Matches(Only('('), t) <==> t == ['('] {
      OnlyMatches('(', t);
    }
    MaybeFront(Only('('), Both(Maybe(Sign()), NumberPattern()), s);
    hide Matches, ComplexTokens.IsNumber, ComplexTokens.Unsigned;
    SignedMatches(s);
    if s != [] {
      SignedMatches(s[1..]);
      assert s[..1] == [s[0]];
    }
  }

  /** A number, `j`, and perhaps a bracket. */
  ghost predicate NumberToEnd(s: string) {
    var t := if s != [] && s[|s| - 1] == ')' then s[..|s| - 1] else s;
    |t| >= 1 && t[|t| - 1] == 'j' && ComplexTokens.IsNumber(t[..|t| - 1])
  }

  lemma InsideOf(t: string)
    requires |t| >= 2
    ensures t[1..][..|t| - 2] == t[1..|t| - 1] && t[1..][|t| - 2] == t[|t| - 1]
  {
  }

  lemma ImagIsSigned(s: string)
    ensures ComplexTokens.IsImag(s) <==> s != [] && ComplexTokens.IsSign(s[0]) && NumberToEnd(s[1..])
  {
    hide ComplexTokens.IsNumber;
    if |s| >= 2 {
      var u := s[1..];
      var t := if s[|s| - 1] == ')' then s[..|s| - 1] else s;
      var v := if u[|u| - 1] == ')' then u[..|u| - 1] else u;
      assert u[|u| - 1] == s[|s| - 1] && v == t[1..];
      if |v| >= 1 {
        InsideOf(t);
      }
    }
  }

  lemma ImagMatches(s: string)
    ensures Matches(ImagPattern(), s) <==> ComplexTokens.IsImag(s)
  {
    forall t ensures Matches(Sign(), t) <==> |t| == 1 && ComplexTokens.IsSign(t[0]) {
      SignMatches(t);
    }
    FrontMatches(Sign(), Both(NumberPattern(), Both(Only('j'), Maybe(Only(')')))), s);
    ImagIsSigned(s);
    hide Matches, ComplexTokens.IsImag, NumberToEnd;
    if s != [] {
      assert s[..1] == [s[0]];
      NumberAndEnd(s[1..]);
    }
  }

  lemma NumberAndEnd(s: string)
    ensures Matches(Both(NumberPattern(), Both(Only('j'), Maybe(Only(')')))), s) <==> NumberToEnd(s)
  {
    var end := Both(Only('j'), Maybe(Only(')')));
    if Matches(Both(NumberPattern(), end), s) {
      var k :| 0 <= k <= |s| && Matches(NumberPattern(), s[..k]) && Matches(end, s[k..]);
      hide Matches, ComplexTokens.IsNumber;
      NumberMatches(s[..k]);
      EndMatches(s[k..]);
      EndAt(s, k);
    }
    hide Matches, ComplexTokens.IsNumber;
    if NumberToEnd(s) {
      var t := if s != [] && s[|s| - 1] == ')' then s[..|s| - 1] else s;
      var k := |t| - 1;
      NumberMatches(s[..k]);
      EndMatches(s[k..]);
      assert s[..k] == t[..k];
      assert s[k..] == if |s| == |t| then ['j'] else ['j', ')'];
      BothMatch(NumberPattern(), end, s, k);
    }
  }

  lemma EndAt(s: string, k: nat)
    requires k <= |s| && ComplexTokens.IsNumber(s[..k]) && (s[k..] == ['j'] || s[k..] == ['j', ')'])
    ensures NumberToEnd(s)
  {
    hide ComplexTokens.IsNumber;
    var t := if s != [] && s[|s| - 1] == ')' then s[..|s| - 1] else s;
    assert s[k] == s[k..][0] == 'j';
    assert |s| == k + 2 ==> s[k + 1] == s[k..][1];
    assert t[..|t| - 1] == s[..k];
  }

  lemma EndMatches(u: string)
    ensures Matches(Both(Only('j'), Maybe(Only(')'))), u) <==> u == ['j'] || u == ['j', ')']
  {
    forall x, t ensures Matches(Only(x), t) <==> t == [x] {
      OnlyMatches(x, t);
    }
    FrontMatches(Only('j'), Maybe(Only(')')), u);
    if |u| == 2 {
      assert u[..1] == [u[0]] && u[1..] == [u[1]];
    }
    if |u| == 1 {
      assert u[..1] == [u[0]] && u[1..] == [];
    }
  }

  /** The three patterns of a complex element. */
  lemma ComplexPatterns(s: string)
    ensures ComplexTokens.IsReal(s) <==> Matches(RealPattern(), s)
    ensures ComplexTokens.IsImag(s) <==> Matches(ImagPattern(), s)
    ensures ComplexTokens.IsElement(s) <==> Matches(ElementPattern(), s)
  {
    RealMatches(s);
    ImagMatches(s);
    hide ComplexTokens.IsReal, ComplexTokens.IsImag, RealPattern, ImagPattern;
    forall k | 0 <= k <= |s|
      ensures ComplexTokens.IsReal(s[..k]) && ComplexTokens.IsImag(s[k..]) <==> Matches(RealPattern(), s[..k]) && Matches(ImagPattern(), s[k..])
    {
      RealMatches(s[..k]);
      ImagMatches(s[k..]);
    }
  }
}
