/** Opaque identifiers: digests of a framing that can be read back. */
module OpaqueIds {
  import opened Wrappers
  import opened Bytes
  import opened Text

  /** A component of an identifier; texts are given by their UTF-8 bytes. */
  datatype Component =
    | Truth(value: bool)
    | Number(number: int)
    | Text(bytes: seq<Byte>)
    | Unsupported

  /** How a compiler frames: its namespace, and whether it takes truth values for numbers. */
  datatype Framing = Framing(namespace: seq<Byte>, truthIsNumber: bool)

  datatype IdError = UnsupportedIdComponent | NegativeIdComponent | LengthOverflow | InvalidGeneratedOpaqueId | OpaqueIdCollision

  /** A component as it is framed: a truth value taken for a number is that number. */
  function Plain(c: Component): Component {
    if c.Truth? then Number(if c.value then 1 else 0) else c
  }

  function Payload(framing: Framing, c: Component): Result<seq<Byte>, IdError> {
    match c
    case Truth(_) =>
      if framing.truthIsNumber then Success([105] + Big(Plain(c).number, 8)) else Failure(UnsupportedIdComponent)
    case Number(n) =>
      if n < 0 then Failure(if framing.truthIsNumber then NegativeIdComponent else UnsupportedIdComponent)
      else if n >= Limit(8) then Failure(LengthOverflow)
      else Success([105] + Big(n, 8))
    case Text(bytes) => Success([115] + bytes)
    case Unsupported => Failure(UnsupportedIdComponent)
  }

  /** The bytes behind their length in `k` bytes. */
  function Prefixed(b: seq<Byte>, k: nat): Result<seq<Byte>, IdError> {
    if |b| >= Limit(k) then Failure(LengthOverflow) else Success(Big(|b|, k) + b)
  }

  function FrameComponent(framing: Framing, c: Component): Result<seq<Byte>, IdError> {
    var payload := Payload(framing, c);
    if payload.Failure? then payload else Prefixed(payload.value, 8)
  }

  function FrameComponents(framing: Framing, cs: seq<Component>): Result<seq<Byte>, IdError> {
    if cs == [] then Success([])
    else
      var first := FrameComponent(framing, cs[0]);
      if first.Failure? then first
      else
        var rest := FrameComponents(framing, cs[1..]);
        if rest.Failure? then rest else Success(first.value + rest.value)
  }

  /** The bytes that are hashed. */
  function Frame(framing: Framing, domain: seq<Byte>, cs: seq<Component>): Result<seq<Byte>, IdError> {
    var namespace, place := Prefixed(framing.namespace, 4), Prefixed(domain, 4);
    if namespace.Failure? then namespace
    else if place.Failure? then place
    else
      var rest := FrameComponents(framing, cs);
      if rest.Failure? then rest else Success(namespace.value + (place.value + rest.value))
  }

  // ---- What the bytes say ---------------------------------------------------------------------

  /** Eight bytes stand for `n`, most significant first. */
  ghost predicate Spells(b: seq<Byte>, n: nat) {
    && |b| == 8
    && 72_057_594_037_927_936 * b[0] as int + 281_474_976_710_656 * b[1] as int + 1_099_511_627_776 * b[2] as int
         + 4_294_967_296 * b[3] as int + 16_777_216 * b[4] as int + 65_536 * b[5] as int + 256 * b[6] as int + b[7] as int == n
  }

  ghost predicate SpellsShort(b: seq<Byte>, n: nat) {
    |b| == 4 && 16_777_216 * b[0] as int + 65_536 * b[1] as int + 256 * b[2] as int + b[3] as int == n
  }

  /** A number behind the byte for `i`, or a text behind the byte for `s`. */
  ghost predicate Tagged(p: seq<Byte>, c: Component) {
    && p != []
    && match c
       case Number(n) => p[0] as int == 'i' as int && n >= 0 && Spells(p[1..], n)
       case Text(bytes) => p[0] as int == 's' as int && p[1..] == bytes
       case Truth(value) => p[0] as int == 'i' as int && Spells(p[1..], if value then 1 else 0)
       case Unsupported => false
  }

  lemma BigSpells(n: nat)
    ensures n < Limit(8) ==> Spells(Big(n, 8), n)
    ensures n < Limit(4) ==> SpellsShort(Big(n, 4), n)
  {
    BigEight(Big(n, 8));
    BigFour(Big(n, 4));
    if n < Limit(8) {
      BigRoundTrip(n, 8);
    }
    if n < Limit(4) {
      BigRoundTrip(n, 4);
    }
  }

  /** The components, each behind its length in eight bytes. */
  ghost predicate Laid(b: seq<Byte>, cs: seq<Component>)
    decreases |cs|
  {
    if cs == [] then b == []
    else exists p, n: nat :: Part(b, p, n) && Tagged(p, cs[0]) && n == 8 + |p| && Laid(b[n..], cs[1..])
  }

  /** The first `n` bytes are a length and then `p`. */
  ghost predicate Part(b: seq<Byte>, p: seq<Byte>, n: nat) {
    8 <= n <= |b| && Spells(b[..8], |p|) && b[8..n] == p
  }

  lemma PayloadIsTagged(f: Framing, c: Component)
    ensures Payload(f, c).Success? <==>
            match c case Number(n) => 0 <= n < 18_446_744_073_709_551_616 case Text(_) => true case Truth(_) => f.truthIsNumber case Unsupported => false
    ensures Payload(f, c).Success? ==> Tagged(Payload(f, c).value, c)
    ensures Payload(f, c) == Failure(LengthOverflow) <==> c.Number? && c.number >= 18_446_744_073_709_551_616
    ensures Payload(f, c) == Failure(NegativeIdComponent) <==> f.truthIsNumber && c.Number? && c.number < 0
    ensures Payload(f, c).Failure? ==> Payload(f, c).error in {LengthOverflow, NegativeIdComponent, UnsupportedIdComponent}
  {
    LimitValues();
    hide Spells;
    match c {
      case Number(n) =>
        if n >= 0 {
          BigSpells(n);
        }
      case Truth(value) =>
        BigSpells(if value then 1 else 0);
      case _ =>
    }
  }

  lemma {:induction false} ComponentsAreLaid(f: Framing, cs: seq<Component>)
    ensures FrameComponents(f, cs).Success? ==> Laid(FrameComponents(f, cs).value, cs)
    decreases |cs|
  {
    hide Spells, Tagged;
    if cs != [] && FrameComponents(f, cs).Success? {
      ComponentsAreLaid(f, cs[1..]);
      PayloadIsTagged(f, cs[0]);
      var p := Payload(f, cs[0]).value;
      var rest := FrameComponents(f, cs[1..]).value;
      BigSpells(|p|);
      var b := Big(|p|, 8) + p + rest;
      assert FrameComponents(f, cs).value == b;
      assert b[..8] == Big(|p|, 8) && b[8..8 + |p|] == p && b[8 + |p|..] == rest;
      assert Part(b, p, 8 + |p|);
    }
  }

  /** What is hashed: the namespace and the domain, each behind its length in four bytes, and the components. */
  lemma FrameIsLaid(f: Framing, domain: seq<Byte>, cs: seq<Component>)
    requires Frame(f, domain, cs).Success?
    ensures var b := Frame(f, domain, cs).value;
            var m, n := 4 + |f.namespace|, 4 + |f.namespace| + 4 + |domain|;
            && n <= |b|
            && SpellsShort(b[..4], |f.namespace|) && b[4..m] == f.namespace
            && SpellsShort(b[m..m + 4], |domain|) && b[m + 4..n] == domain
            && Laid(b[n..], cs)
  {
    hide SpellsShort, Laid;
    BigSpells(|f.namespace|);
    BigSpells(|domain|);
    ComponentsAreLaid(f, cs);
    var rest := FrameComponents(f, cs).value;
    var b := Frame(f, domain, cs).value;
    hide FrameComponents;
    assert b == (Big(|f.namespace|, 4) + f.namespace) + ((Big(|domain|, 4) + domain) + rest);
    Slices(Big(|f.namespace|, 4), f.namespace, Big(|domain|, 4), domain, rest);
  }

  lemma Slices(a: seq<Byte>, x: seq<Byte>, b: seq<Byte>, y: seq<Byte>, z: seq<Byte>)
    requires |a| == |b| == 4
    ensures var s := (a + x) + ((b + y) + z);
            var m, n := 4 + |x|, 4 + |x| + 4 + |y|;
            s[..4] == a && s[4..m] == x && s[m..m + 4] == b && s[m + 4..n] == y && s[n..] == z
  {
  }

  // ---- The framing can be read back -----------------------------------------------------------

  /** A length in front determines what it is the length of, and where the rest begins. */
  lemma PrefixedIsReadable(a: seq<Byte>, b: seq<Byte>, k: nat, x: seq<Byte>, y: seq<Byte>)
    requires |a| < Limit(k) && |b| < Limit(k)
    requires Big(|a|, k) + a + x == Big(|b|, k) + b + y
    ensures a == b && x == y
  {
    Regroup(Big(|a|, k), a, x);
    Regroup(Big(|b|, k), b, y);
    SameSplit(Big(|a|, k), a + x, Big(|b|, k), b + y);
    SameLength(|a|, |b|, k);
    SameSplit(a, x, b, y);
  }

  lemma Regroup(a: seq<Byte>, b: seq<Byte>, c: seq<Byte>)
    ensures a + b + c == a + (b + c)
  {
  }

  lemma SameLength(m: nat, n: nat, k: nat)
    requires m < Limit(k) && n < Limit(k) && Big(m, k) == Big(n, k)
    ensures m == n
  {
    BigRoundTrip(m, k);
    BigRoundTrip(n, k);
  }

  /** Equal texts split at the same place split into equal parts. */
  lemma SameSplit(a: seq<Byte>, x: seq<Byte>, b: seq<Byte>, y: seq<Byte>)
    requires |a| == |b| && a + x == b + y
    ensures a == b && x == y
  {
    assert a == (a + x)[..|a|] && b == (b + y)[..|a|];
    assert x == (a + x)[|a|..] && y == (b + y)[|a|..];
  }

  lemma PayloadIsReadable(f: Framing, g: Framing, a: Component, b: Component)
    requires Payload(f, a).Success? && Payload(f, a) == Payload(g, b)
    ensures Plain(a) == Plain(b)
  {
    var p := Payload(f, a).value;
    assert Limit(8) > 1 by {
      LimitValues();
    }
    if p[0] == 105 {
      var m, n := Plain(a).number, Plain(b).number;
      BigRoundTrip(m, 8);
      BigRoundTrip(n, 8);
      assert p[1..] == Big(m, 8) && p[1..] == Big(n, 8);
    } else {
      assert p[1..] == a.bytes && p[1..] == b.bytes;
    }
  }

  ghost function PlainAll(cs: seq<Component>): seq<Component> {
    if cs == [] then [] else [Plain(cs[0])] + PlainAll(cs[1..])
  }

  lemma {:induction false} ComponentsAreReadable(f: Framing, g: Framing, a: seq<Component>, b: seq<Component>)
    requires FrameComponents(f, a).Success? && FrameComponents(f, a) == FrameComponents(g, b)
    ensures PlainAll(a) == PlainAll(b)
    decreases |a|
  {
    if a != [] && b != [] {
      var p, q := Payload(f, a[0]).value, Payload(g, b[0]).value;
      var x, y := FrameComponents(f, a[1..]).value, FrameComponents(g, b[1..]).value;
      PrefixedIsReadable(p, q, 8, x, y);
      PayloadIsReadable(f, g, a[0], b[0]);
      ComponentsAreReadable(f, g, a[1..], b[1..]);
    }
  }

  /** The bytes hashed determine the namespace, the domain and the whole list of components. */
  lemma FrameIsReadable(f: Framing, g: Framing, d: seq<Byte>, e: seq<Byte>, a: seq<Component>, b: seq<Component>)
    requires Frame(f, d, a).Success? && Frame(f, d, a) == Frame(g, e, b)
    ensures f.namespace == g.namespace && d == e && PlainAll(a) == PlainAll(b)
  {
    var x, y := FrameComponents(f, a).value, FrameComponents(g, b).value;
    var p, q := Prefixed(d, 4).value, Prefixed(e, 4).value;
    PrefixedIsReadable(f.namespace, g.namespace, 4, p + x, q + y);
    PrefixedIsReadable(d, e, 4, x, y);
    ComponentsAreReadable(f, g, a, b);
  }

  lemma {:induction false} FramedComponentsArePlain(f: Framing, cs: seq<Component>)
    requires !f.truthIsNumber && FrameComponents(f, cs).Success?
    ensures PlainAll(cs) == cs
    decreases |cs|
  {
    if cs != [] {
      FramedComponentsArePlain(f, cs[1..]);
      assert cs == [cs[0]] + cs[1..];
    }
  }

  // ---- Issuing -----------------------------------------------------------------------------------

  type Claim = (seq<Byte>, seq<Component>)

  class OpaqueIdentifiers {
    const namespace: seq<Byte>
    const hash: seq<Byte> -> string
    var claims: map<string, Claim>

    function Framed(claim: Claim): Result<seq<Byte>, IdError> {
      Frame(Framing(namespace, false), claim.0, claim.1)
    }

    /** Every identifier issued is the digest of its claim. */
    ghost predicate Valid()
      reads this
    {
      forall id :: id in claims.Keys ==> Framed(claims[id]).Success? && hash(Framed(claims[id]).value) == id
    }

    constructor (namespace: seq<Byte>, hash: seq<Byte> -> string)
      ensures Valid() && claims == map[] && this.namespace == namespace && this.hash == hash
    {
      this.namespace, this.hash := namespace, hash;
      claims := map[];
    }

    /** Issues the digest of the claim, and refuses only when two different byte strings have the same digest. */
    method Issue(domain: seq<Byte>, components: seq<Component>) returns (r: Result<string, IdError>)
      requires Valid()
      modifies this
      ensures Valid()
      ensures var claim := (domain, components);
              var framed := Framed(claim);
              && (r.Success? ==> framed.Success? && r.value == hash(framed.value) && claims == old(claims)[r.value := claim])
              && (r.Failure? ==> claims == old(claims))
              && (framed.Failure? ==> r == Failure(framed.error))
              && (r == Failure(OpaqueIdCollision) <==>
                    && framed.Success? && IsDigest(hash(framed.value))
                    && hash(framed.value) in old(claims)
                    && Framed(old(claims)[hash(framed.value)]) != framed)
      ensures r.Success? ==> forall id :: id in old(claims).Keys ==> claims[id] == old(claims)[id]
    {
      var claim := (domain, components);
      var framed := Framed(claim);
      NeverCollision(domain, components);
      if framed.Failure? {
        return Failure(framed.error);
      }
      var identifier := hash(framed.value);
      if !IsDigest(identifier) {
        return Failure(InvalidGeneratedOpaqueId);
      }
      if identifier in claims {
        SameFrameSameClaim(namespace, claims[identifier], claim);
        if claims[identifier] != claim {
          return Failure(OpaqueIdCollision);
        }
      }
      claims := claims[identifier := claim];
      r := Success(identifier);
    }

    lemma NeverCollision(domain: seq<Byte>, components: seq<Component>)
      ensures Framed((domain, components)) != Failure(OpaqueIdCollision)
    {
      ComponentsNeverCollide(Framing(namespace, false), components);
    }
  }

  lemma {:induction false} ComponentsNeverCollide(f: Framing, cs: seq<Component>)
    ensures FrameComponents(f, cs) != Failure(OpaqueIdCollision)
    decreases |cs|
  {
    if cs != [] {
      ComponentsNeverCollide(f, cs[1..]);
    }
  }

  /** Where truth values are refused, different claims are framed differently. */
  lemma SameFrameSameClaim(namespace: seq<Byte>, a: Claim, b: Claim)
    requires var f := Framing(namespace, false); Frame(f, a.0, a.1).Success? && Frame(f, b.0, b.1).Success?
    ensures var f := Framing(namespace, false); Frame(f, a.0, a.1) == Frame(f, b.0, b.1) <==> a == b
  {
    var f := Framing(namespace, false);
    if Frame(f, a.0, a.1) == Frame(f, b.0, b.1) {
      FrameIsReadable(f, f, a.0, b.0, a.1, b.1);
      FramedComponentsArePlain(f, a.1);
      FramedComponentsArePlain(f, b.1);
    }
  }
}
