/** Unsigned integers as bytes, in both orders. */
module Bytes {

  type Byte = b: int | 0 <= b < 256

  function Limit(k: nat): nat {
    if k == 0 then 1 else 256 * Limit(k - 1)
  }

  function Little(n: nat, k: nat): (b: seq<Byte>)
    ensures |b| == k
  {
    if k == 0 then [] else [n % 256] + Little(n / 256, k - 1)
  }

  function FromLittle(b: seq<Byte>): nat {
    if b == [] then 0 else b[0] + 256 * FromLittle(b[1..])
  }

  function Big(n: nat, k: nat): (b: seq<Byte>)
    ensures |b| == k
  {
    if k == 0 then [] else Big(n / 256, k - 1) + [n % 256]
  }

  function FromBig(b: seq<Byte>): nat {
    if b == [] then 0 else 256 * FromBig(b[..|b| - 1]) + b[|b| - 1]
  }

  lemma {:induction false} LittleRoundTrip(n: nat, k: nat)
    requires n < Limit(k)
    ensures FromLittle(Little(n, k)) == n
  {
    if k > 0 {
      LittleRoundTrip(n / 256, k - 1);
      assert Little(n, k)[1..] == Little(n / 256, k - 1);
    }
  }

  lemma {:induction false} FromLittleRoundTrip(b: seq<Byte>)
    ensures FromLittle(b) < Limit(|b|) && Little(FromLittle(b), |b|) == b
    decreases |b|
  {
    if b != [] {
      FromLittleRoundTrip(b[1..]);
      var n := FromLittle(b);
      assert n % 256 == b[0] && n / 256 == FromLittle(b[1..]);
      assert b == [b[0]] + b[1..];
    }
  }

  lemma {:induction false} BigRoundTrip(n: nat, k: nat)
    requires n < Limit(k)
    ensures FromBig(Big(n, k)) == n
  {
    if k > 0 {
      BigRoundTrip(n / 256, k - 1);
      assert Big(n, k)[..k - 1] == Big(n / 256, k - 1);
    }
  }

  lemma {:induction false} FromBigRoundTrip(b: seq<Byte>)
    ensures FromBig(b) < Limit(|b|) && Big(FromBig(b), |b|) == b
    decreases |b|
  {
    if b != [] {
      var last := |b| - 1;
      FromBigRoundTrip(b[..last]);
      var n := FromBig(b);
      assert n % 256 == b[last] && n / 256 == FromBig(b[..last]);
      assert b == b[..last] + [b[last]];
    }
  }

  lemma LimitValues()
    ensures Limit(4) == 0x1_0000_0000 && Limit(8) == 0x1_0000_0000_0000_0000
  {
    assert Limit(2) == 65536 && Limit(4) == 65536 * Limit(2) && Limit(6) == 65536 * Limit(4);
  }

  /** Two's complement, eight bytes, least significant first. */
  function Signed64(b: seq<Byte>): int
    requires |b| == 8
  {
    var n := FromLittle(b);
    if n < 0x8000_0000_0000_0000 then n else n - 0x1_0000_0000_0000_0000
  }

  lemma Signed64Range(b: seq<Byte>)
    requires |b| == 8
    ensures -0x8000_0000_0000_0000 <= Signed64(b) < 0x8000_0000_0000_0000
  {
    FromLittleRoundTrip(b);
    LimitValues();
  }

  // ---- What the digits count -----------------------------------------------------------

  lemma LittleStep(b: seq<Byte>)
    requires b != []
    ensures FromLittle(b) == b[0] as int + 256 * FromLittle(b[1..])
    ensures FromLittle([]) == 0
  {
  }

  lemma BigStep(b: seq<Byte>)
    requires b != []
    ensures FromBig(b) == 256 * FromBig(b[..|b| - 1]) + b[|b| - 1] as int
    ensures FromBig([]) == 0
  {
  }

  lemma LittleFour(b: seq<Byte>)
    requires |b| == 4
    ensures FromLittle(b) == b[0] as int + 256 * b[1] as int + 65_536 * b[2] as int + 16_777_216 * b[3] as int
  {
    LittleStep(b);
    LittleStep(b[1..]);
    LittleStep(b[2..]);
    LittleStep(b[3..]);
    assert b[1..][1..] == b[2..] && b[2..][1..] == b[3..] && b[3..][1..] == [];
  }

  lemma BigFour(b: seq<Byte>)
    requires |b| == 4
    ensures FromBig(b) == 16_777_216 * b[0] as int + 65_536 * b[1] as int + 256 * b[2] as int + b[3] as int
  {
    BigStep(b);
    BigStep(b[..3]);
    BigStep(b[..2]);
    BigStep(b[..1]);
    assert b[..3][..2] == b[..2] && b[..2][..1] == b[..1] && b[..1][..0] == [];
  }

  lemma {:induction false} LittleParts(a: seq<Byte>, b: seq<Byte>)
    ensures FromLittle(a + b) == FromLittle(a) + Limit(|a|) * FromLittle(b)
    decreases |a|
  {
    if a == [] {
      assert a + b == b;
    } else {
      assert (a + b)[1..] == a[1..] + b;
      LittleParts(a[1..], b);
      LittleStep(a + b);
      LittleStep(a);
      Scale(FromLittle(a[1..]), Limit(|a| - 1), FromLittle(b));
    }
  }

  lemma {:induction false} BigParts(a: seq<Byte>, b: seq<Byte>)
    ensures FromBig(a + b) == Limit(|b|) * FromBig(a) + FromBig(b)
    decreases |b|
  {
    if b == [] {
      assert a + b == a;
    } else {
      var last := |b| - 1;
      assert (a + b)[..|a| + last] == a + b[..last];
      BigParts(a, b[..last]);
      BigStep(a + b);
      BigStep(b);
      Scale(FromBig(b[..last]), Limit(last), FromBig(a));
    }
  }

  lemma Scale(x: nat, l: nat, y: nat)
    ensures 256 * (x + l * y) == 256 * x + (256 * l) * y
  {
  }

  lemma LittleEight(b: seq<Byte>)
    requires |b| == 8
    ensures FromLittle(b) ==
            b[0] as int + 256 * b[1] as int + 65_536 * b[2] as int + 16_777_216 * b[3] as int + 4_294_967_296 * b[4] as int
              + 1_099_511_627_776 * b[5] as int + 281_474_976_710_656 * b[6] as int + 72_057_594_037_927_936 * b[7] as int
  {
    LittleFour(b[..4]);
    LittleFour(b[4..]);
    LittleParts(b[..4], b[4..]);
    assert b == b[..4] + b[4..];
    LimitValues();
  }

  lemma BigEight(b: seq<Byte>)
    requires |b| == 8
    ensures FromBig(b) ==
            72_057_594_037_927_936 * b[0] as int + 281_474_976_710_656 * b[1] as int + 1_099_511_627_776 * b[2] as int
              + 4_294_967_296 * b[3] as int + 16_777_216 * b[4] as int + 65_536 * b[5] as int + 256 * b[6] as int + b[7] as int
  {
    BigFour(b[..4]);
    BigFour(b[4..]);
    BigParts(b[..4], b[4..]);
    assert b == b[..4] + b[4..];
    LimitValues();
  }
}
