/** The order of strings: by the first character in which they differ. */
module Text {
  import opened Sorting

  predicate StringLe(a: string, b: string) {
    a == [] || (b != [] && (a[0] < b[0] || (a[0] == b[0] && StringLe(a[1..], b[1..]))))
  }

  /** `a` begins `b`, or has the lesser character where they first differ. */
  ghost predicate Alphabetical(a: string, b: string) {
    a <= b || exists k :: 0 <= k < |a| && k < |b| && a[..k] == b[..k] && a[k] < b[k]
  }

  lemma FirstDecides(a: string, b: string)
    requires a != [] && b != [] && (a[0] < b[0] || (a[0] == b[0] && Alphabetical(a[1..], b[1..])))
    ensures Alphabetical(a, b)
  {
    var s, t := a[1..], b[1..];
    if a[0] < b[0] {
      assert a[..0] == b[..0];
    } else if s <= t {
      assert a == [a[0]] + s && b[..|a|] == [b[0]] + t[..|s|];
    } else {
      var k :| 0 <= k < |s| && k < |t| && s[..k] == t[..k] && s[k] < t[k];
      assert a[..k + 1] == [a[0]] + s[..k] && b[..k + 1] == [b[0]] + t[..k];
      assert a[k + 1] < b[k + 1];
    }
  }

  lemma RestDecides(a: string, b: string)
    requires a != [] && b != [] && Alphabetical(a, b)
    ensures a[0] < b[0] || (a[0] == b[0] && Alphabetical(a[1..], b[1..]))
  {
    var s, t := a[1..], b[1..];
    if a <= b {
      assert a[0] == b[..|a|][0] && s == b[..|a|][1..] == t[..|s|];
    } else {
      var k :| 0 <= k < |a| && k < |b| && a[..k] == b[..k] && a[k] < b[k];
      if k > 0 {
        assert a[0] == a[..k][0] == b[..k][0] == b[0];
        assert s[..k - 1] == a[..k][1..] == b[..k][1..] == t[..k - 1];
        assert s[k - 1] < t[k - 1];
      }
    }
  }

  lemma {:induction false} StringLeIsAlphabetical(a: string, b: string)
    ensures StringLe(a, b) <==> Alphabetical(a, b)
  {
    if a != [] && b != [] {
      StringLeIsAlphabetical(a[1..], b[1..]);
      hide Alphabetical;
      if StringLe(a, b) {
        FirstDecides(a, b);
      }
      if Alphabetical(a, b) {
        RestDecides(a, b);
      }
    }
  }

  lemma {:induction false} LeTotal(a: string, b: string)
    ensures StringLe(a, b) || StringLe(b, a)
  {
    if a != [] && b != [] && a[0] == b[0] {
      LeTotal(a[1..], b[1..]);
    }
  }

  lemma {:induction false} LeAntisymmetric(a: string, b: string)
    requires StringLe(a, b) && StringLe(b, a)
    ensures a == b
  {
    if a != [] && b != [] {
      LeAntisymmetric(a[1..], b[1..]);
    }
  }

  lemma {:induction false} LeTransitive(a: string, b: string, c: string)
    requires StringLe(a, b) && StringLe(b, c)
    ensures StringLe(a, c)
  {
    if a != [] && a[0] == b[0] == c[0] {
      LeTransitive(a[1..], b[1..], c[1..]);
    }
  }

  lemma StringLeIsTotalOrder()
    ensures TotalOrder(StringLe)
  {
    forall a, b ensures StringLe(a, b) || StringLe(b, a) {
      LeTotal(a, b);
    }
    forall a, b | StringLe(a, b) && StringLe(b, a) ensures a == b {
      LeAntisymmetric(a, b);
    }
    forall a, b, c | StringLe(a, b) && StringLe(b, c) ensures StringLe(a, c) {
      LeTransitive(a, b, c);
    }
  }

  /** A digest in hexadecimal: 64 lower-case digits. */
  predicate IsDigest(s: string) {
    |s| == 64 && forall i :: 0 <= i < |s| ==> 'a' <= s[i] <= 'f' || '0' <= s[i] <= '9'
  }
}
