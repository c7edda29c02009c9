/** Rejoining complex elements that column padding has split in two. */
module ComplexTokens {
  import opened Wrappers

  const MAX_TOKEN_BYTES := 128

  datatype TokenError = InvalidComplexToken

  // ---- How a complex element is printed ---------------------------------------------------------

  predicate Digits(s: string) {
    s != [] && forall i :: 0 <= i < |s| ==> '0' <= s[i] <= '9'
  }

  predicate Mantissa(s: string) {
    || Digits(s)
    || (exists k :: 0 < k < |s| && s[k] == '.' && Digits(s[..k]) && (s[k + 1..] == [] || Digits(s[k + 1..])))
    || (|s| > 1 && s[0] == '.' && Digits(s[1..]))
  }

  predicate IsSign(c: char) {
    c == '+' || c == '-'
  }

  predicate Exponent(s: string) {
    |s| > 1 && (s[0] == 'e' || s[0] == 'E') && (Digits(s[1..]) || (IsSign(s[1]) && Digits(s[2..])))
  }

  predicate IsNumber(s: string) {
    s == "nan" || s == "inf" || Mantissa(s) || exists k :: 0 < k < |s| && Mantissa(s[..k]) && Exponent(s[k..])
  }

  function Unsigned(s: string): string {
    if s != [] && IsSign(s[0]) then s[1..] else s
  }

  predicate IsReal(s: string) {
    IsNumber(Unsigned(if s != [] && s[0] == '(' then s[1..] else s))
  }

  predicate IsImag(s: string) {
    var t := if s != [] && s[|s| - 1] == ')' then s[..|s| - 1] else s;
    |t| >= 2 && IsSign(t[0]) && t[|t| - 1] == 'j' && IsNumber(t[1..|t| - 1])
  }

  predicate IsElement(s: string) {
    exists k :: 0 <= k <= |s| && IsReal(s[..k]) && IsImag(s[k..])
  }

  // ---- A real part is never mistaken for an element -----------------------------------------------

  predicate HasJ(s: string) {
    exists i :: 0 <= i < |s| && s[i] == 'j'
  }

  lemma NoJInParts(s: string, k: nat)
    requires k <= |s| && !HasJ(s[..k]) && !HasJ(s[k..])
    ensures !HasJ(s)
  {
    forall i | 0 <= i < |s| ensures s[i] != 'j' {
      assert s[i] == if i < k then s[..k][i] else s[k..][i - k];
    }
  }

  lemma NoJInDigits(s: string)
    requires s == [] || Digits(s)
    ensures !HasJ(s)
  {
  }

  lemma NoJAfter(s: string, k: nat)
    requires k <= |s| && !HasJ(s[k..]) && forall i :: 0 <= i < k ==> s[i] != 'j'
    ensures !HasJ(s)
  {
    NoJInParts(s, k);
  }

  lemma NoJInMantissa(s: string)
    requires Mantissa(s)
    ensures !HasJ(s)
  {
    if Digits(s) {
      NoJInDigits(s);
    } else if |s| > 1 && s[0] == '.' && Digits(s[1..]) {
      NoJInDigits(s[1..]);
      NoJAfter(s, 1);
    } else {
      var k :| 0 < k < |s| && s[k] == '.' && Digits(s[..k]) && (s[k + 1..] == [] || Digits(s[k + 1..]));
      NoJInDigits(s[..k]);
      NoJInDigits(s[k + 1..]);
      assert s[k..][1..] == s[k + 1..];
      NoJAfter(s[k..], 1);
      NoJInParts(s, k);
    }
  }

  lemma NoJInExponent(s: string)
    requires Exponent(s)
    ensures !HasJ(s)
  {
    if Digits(s[1..]) {
      NoJInDigits(s[1..]);
      NoJAfter(s, 1);
    } else {
      NoJInDigits(s[2..]);
      NoJAfter(s, 2);
    }
  }

  lemma NoJInNumber(s: string)
    requires IsNumber(s)
    ensures !HasJ(s)
  {
    if s != "nan" && s != "inf" {
      if Mantissa(s) {
        NoJInMantissa(s);
      } else {
        var k :| 0 < k < |s| && Mantissa(s[..k]) && Exponent(s[k..]);
        NoJInMantissa(s[..k]);
        NoJInExponent(s[k..]);
        NoJInParts(s, k);
      }
    }
  }

  lemma NoJInReal(s: string)
    requires IsReal(s)
    ensures !HasJ(s)
  {
    var t := if s != [] && s[0] == '(' then s[1..] else s;
    NoJInNumber(Unsigned(t));
    if Unsigned(t) != t {
      NoJAfter(t, 1);
    }
    if t != s {
      NoJAfter(s, 1);
    }
  }

  lemma ElementHasJ(s: string)
    requires IsElement(s)
    ensures HasJ(s)
  {
    var k :| 0 <= k <= |s| && IsReal(s[..k]) && IsImag(s[k..]);
    var t := s[k..];
    var end := if t[|t| - 1] == ')' then |t| - 2 else |t| - 1;
    assert t[end] == 'j' && s[k + end] == t[end];
  }

  // ---- What the tokens may be ------------------------------------------------------------------------

  /** The tokens are the elements in turn, each whole or split into its two parts. */
  ghost predicate Splits(tokens: seq<string>, elements: seq<string>)
    decreases |elements|
  {
    if elements == [] then tokens == []
    else
      var e := elements[0];
      || (|tokens| >= 1 && tokens[0] == e && IsElement(e) && Splits(tokens[1..], elements[1..]))
      || (|tokens| >= 2 && tokens[0] + tokens[1] == e && IsReal(tokens[0]) && IsImag(tokens[1]) && Splits(tokens[2..], elements[1..]))
  }

  /** How the greedy reading goes on. */
  function Rejoined(tokens: seq<string>): Result<seq<string>, TokenError>
    decreases |tokens|
  {
    if tokens == [] then Success([])
    else if IsElement(tokens[0]) then Then(tokens[0], Rejoined(tokens[1..]))
    else if |tokens| >= 2 && IsReal(tokens[0]) && IsImag(tokens[1]) then Then(tokens[0] + tokens[1], Rejoined(tokens[2..]))
    else Failure(InvalidComplexToken)
  }

  function Then(first: string, rest: Result<seq<string>, TokenError>): Result<seq<string>, TokenError> {
    if rest.Failure? then rest else Success([first] + rest.value)
  }

  lemma {:induction false} RejoinedSplits(tokens: seq<string>)
    requires Rejoined(tokens).Success?
    ensures Splits(tokens, Rejoined(tokens).value)
    decreases |tokens|
  {
    if tokens != [] {
      hide IsElement, IsReal, IsImag;
      var all := Rejoined(tokens).value;
      if IsElement(tokens[0]) {
        RejoinedSplits(tokens[1..]);
        assert all[1..] == Rejoined(tokens[1..]).value;
      } else {
        RejoinedSplits(tokens[2..]);
        assert all[1..] == Rejoined(tokens[2..]).value;
      }
    }
  }

  /** Whatever the tokens split, the greedy reading finds: there is only one reading. */
  lemma {:induction false} RejoiningIsComplete(tokens: seq<string>, elements: seq<string>)
    requires Splits(tokens, elements)
    ensures Rejoined(tokens) == Success(elements)
    decreases |elements|
  {
    if elements != [] {
      assert elements == [elements[0]] + elements[1..];
      if IsElement(tokens[0]) {
        ElementHasJ(tokens[0]);
        assert !IsReal(tokens[0]) by {
          if IsReal(tokens[0]) {
            NoJInReal(tokens[0]);
          }
        }
        hide IsElement, IsReal, IsImag, HasJ;
        RejoiningIsComplete(tokens[1..], elements[1..]);
      } else {
        hide IsElement, IsReal, IsImag, HasJ;
        RejoiningIsComplete(tokens[2..], elements[1..]);
      }
    }
  }

  /** Tokens are accepted exactly when they split some elements, and then those elements are recovered. */
  lemma RejoiningRecovers(tokens: seq<string>, elements: seq<string>)
    ensures Splits(tokens, elements) <==> Rejoined(tokens) == Success(elements)
  {
    if Splits(tokens, elements) {
      RejoiningIsComplete(tokens, elements);
    }
    if Rejoined(tokens) == Success(elements) {
      RejoinedSplits(tokens);
    }
  }

  function Joined(tokens: seq<string>): string {
    if tokens == [] then [] else tokens[0] + Joined(tokens[1..])
  }

  lemma JoinedPair(a: string, b: string, rest: seq<string>)
    ensures Joined([a, b] + rest) == a + b + Joined(rest)
  {
    assert ([a, b] + rest)[1..] == [b] + rest && ([b] + rest)[1..] == rest;
    assert Joined([b] + rest) == b + Joined(rest);
    assert a + (b + Joined(rest)) == a + b + Joined(rest);
  }

  lemma PairIsElement(a: string, b: string)
    requires IsReal(a) && IsImag(b)
    ensures IsElement(a + b)
  {
    assert (a + b)[..|a|] == a && (a + b)[|a|..] == b;
  }

  /** Every element is well formed, and no character is lost or moved. */
  lemma {:induction false} SplittingKeepsText(tokens: seq<string>, elements: seq<string>)
    requires Splits(tokens, elements)
    ensures Joined(tokens) == Joined(elements)
    ensures forall i :: 0 <= i < |elements| ==> IsElement(elements[i])
    decreases |elements|
  {
    hide IsElement, IsReal, IsImag;
    if elements != [] {
      var e := elements[0];
      if |tokens| >= 1 && tokens[0] == e && IsElement(e) && Splits(tokens[1..], elements[1..]) {
        SplittingKeepsText(tokens[1..], elements[1..]);
      } else {
        PairIsElement(tokens[0], tokens[1]);
        SplittingKeepsText(tokens[2..], elements[1..]);
        JoinedPair(tokens[0], tokens[1], tokens[2..]);
        assert tokens == [tokens[0], tokens[1]] + tokens[2..];
      }
      assert forall i :: 0 < i < |elements| ==> elements[i] == elements[1..][i - 1];
    }
  }

  ghost predicate Short(tokens: seq<string>) {
    forall i :: 0 <= i < |tokens| ==> |tokens[i]| <= 128
  }

  method ComplexElements(tokens: seq<string>) returns (r: Result<seq<string>, TokenError>)
    ensures r == if Short(tokens) then Rejoined(tokens) else Failure(InvalidComplexToken)
  {
    hide IsElement, IsReal, IsImag;
    if exists i :: 0 <= i < |tokens| && |tokens[i]| > MAX_TOKEN_BYTES {
      assert !Short(tokens);
      return Failure(InvalidComplexToken);
    }
    assert Short(tokens);
    var elements: seq<string>, index := [], 0;
    assert tokens[0..] == tokens;
    NothingBefore(Rejoined(tokens));
    while index < |tokens|
      invariant 0 <= index <= |tokens|
      invariant Rejoined(tokens) == After(elements, Rejoined(tokens[index..]))
      decreases |tokens| - index
    {
      var token := tokens[index];
      ghost var rest := tokens[index..];
      assert rest[1..] == tokens[index + 1..];
      if IsElement(token) {
        AfterThen(elements, token, Rejoined(tokens[index + 1..]));
        elements := elements + [token];
        index := index + 1;
      } else if IsReal(token) && index + 1 < |tokens| && IsImag(tokens[index + 1]) {
        assert rest[2..] == tokens[index + 2..];
        AfterThen(elements, token + tokens[index + 1], Rejoined(tokens[index + 2..]));
        elements := elements + [token + tokens[index + 1]];
        index := index + 2;
      } else {
        return Failure(InvalidComplexToken);
      }
    }
    assert tokens[index..] == [] && elements + [] == elements;
    r := Success(elements);
  }

  function After(done: seq<string>, rest: Result<seq<string>, TokenError>): Result<seq<string>, TokenError> {
    if rest.Failure? then rest else Success(done + rest.value)
  }

  lemma NothingBefore(rest: Result<seq<string>, TokenError>)
    ensures After([], rest) == rest
  {
    if rest.Success? {
      assert [] + rest.value == rest.value;
    }
  }

  lemma AfterThen(done: seq<string>, first: string, rest: Result<seq<string>, TokenError>)
    ensures After(done, Then(first, rest)) == After(done + [first], rest)
  {
    if rest.Success? {
      assert done + ([first] + rest.value) == done + [first] + rest.value;
    }
  }
}
