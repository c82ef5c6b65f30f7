/** Precedence of versions: item 11 of Semantic Versioning 2.0.0, with the build metadata breaking ties. */
module Semver {
  import opened Order

  /** One dot-separated identifier; `zeros` counts the leading zeros only build metadata may carry. */
  datatype Identifier = Numeric(value: nat, zeros: nat) | Alphanumeric(text: string)

  datatype Version = Version(major: nat, minor: nat, patch: nat, pre: seq<Identifier>, build: seq<Identifier>)

  /** Numeric identifiers compare by value and rank below alphanumeric ones, which compare by bytes. */
  predicate IdentifierLess(a: Identifier, b: Identifier) {
    match (a, b)
    case (Numeric(m, y), Numeric(n, z)) => m < n || (m == n && y < z)
    case (Numeric(_, _), Alphanumeric(_)) => true
    case (Alphanumeric(_), Numeric(_, _)) => false
    case (Alphanumeric(s), Alphanumeric(t)) => s != t && StringLeq(s, t)
  }

  /** Field by field; when all preceding identifiers are equal the longer list ranks higher. */
  predicate IdentifiersLeq(a: seq<Identifier>, b: seq<Identifier>) {
    a == [] || (b != [] && (IdentifierLess(a[0], b[0]) || (a[0] == b[0] && IdentifiersLeq(a[1..], b[1..]))))
  }

  /** A version without a pre-release ranks above every pre-release of it. */
  predicate PreLeq(a: seq<Identifier>, b: seq<Identifier>) {
    if a == [] then b == [] else b == [] || IdentifiersLeq(a, b)
  }

  predicate VersionLeq(a: Version, b: Version) {
    if a.major != b.major then a.major < b.major
    else if a.minor != b.minor then a.minor < b.minor
    else if a.patch != b.patch then a.patch < b.patch
    else if a.pre != b.pre then PreLeq(a.pre, b.pre)
    else IdentifiersLeq(a.build, b.build)
  }

  lemma IdentifierOrder(a: Identifier, b: Identifier, c: Identifier)
    ensures !IdentifierLess(a, a)
    ensures a == b || IdentifierLess(a, b) || IdentifierLess(b, a)
    ensures !(IdentifierLess(a, b) && IdentifierLess(b, a))
    ensures IdentifierLess(a, b) && IdentifierLess(b, c) ==> IdentifierLess(a, c)
  {
    if a.Alphanumeric? && b.Alphanumeric? {
      LeqTotal(Codes(a.text), Codes(b.text));
      if StringLeq(a.text, b.text) && StringLeq(b.text, a.text) {
        StringLeqAntisymmetric(a.text, b.text);
      }
      if c.Alphanumeric? && IdentifierLess(a, b) && IdentifierLess(b, c) {
        LeqTransitive(Codes(a.text), Codes(b.text), Codes(c.text));
      }
    }
  }

  lemma {:induction false} IdentifiersTotalOrder(a: seq<Identifier>, b: seq<Identifier>, c: seq<Identifier>)
    ensures IdentifiersLeq(a, a)
    ensures IdentifiersLeq(a, b) || IdentifiersLeq(b, a)
    ensures IdentifiersLeq(a, b) && IdentifiersLeq(b, a) ==> a == b
    ensures IdentifiersLeq(a, b) && IdentifiersLeq(b, c) ==> IdentifiersLeq(a, c)
    decreases |a| + |b| + |c|
  {
    if a != [] {
      IdentifiersTotalOrder(a[1..], if b == [] then [] else b[1..], if c == [] then [] else c[1..]);
      if b != [] {
        IdentifierOrder(a[0], b[0], if c == [] then a[0] else c[0]);
        assert a == [a[0]] + a[1..] && b == [b[0]] + b[1..];
      }
    }
  }

  /** Precedence is a total order on parsed versions. */
  lemma VersionTotalOrder(a: Version, b: Version, c: Version)
    ensures VersionLeq(a, a)
    ensures VersionLeq(a, b) || VersionLeq(b, a)
    ensures VersionLeq(a, b) && VersionLeq(b, a) ==> a == b
    ensures VersionLeq(a, b) && VersionLeq(b, c) ==> VersionLeq(a, c)
  {
    IdentifiersTotalOrder(a.pre, b.pre, c.pre);
    IdentifiersTotalOrder(a.build, b.build, c.build);
  }

  // -- item 11, field by field -----------------------------------------------------------------------

  predicate Below(a: Version, b: Version) {
    VersionLeq(a, b) && !VersionLeq(b, a)
  }

  /** The core of a version: major, then minor, then patch decide, whatever follows. */
  lemma CoreDecides(a: Version, b: Version)
    ensures a.major < b.major ==> Below(a, b)
    ensures a.major == b.major && a.minor < b.minor ==> Below(a, b)
    ensures a.major == b.major && a.minor == b.minor && a.patch < b.patch ==> Below(a, b)
  {
  }

  predicate SameCore(a: Version, b: Version) {
    a.major == b.major && a.minor == b.minor && a.patch == b.patch
  }

  /** A pre-release is below its release. */
  lemma PreReleaseIsBelow(a: Version, b: Version)
    requires SameCore(a, b) && a.pre != [] && b.pre == []
    ensures Below(a, b)
  {
  }

  /**
   Of two pre-releases of one release the first identifier in which they differ decides: numbers by
   value, any number below any text, texts by their first differing character; and when one list is
   the beginning of the other the shorter is below.
   */
  lemma PreReleasesCompare(a: Version, b: Version, k: nat)
    requires SameCore(a, b) && k < |b.pre| && k <= |a.pre| && a.pre != [] && a.pre[..k] == b.pre[..k]
    ensures k == |a.pre| ==> Below(a, b)
    ensures k < |a.pre| && a.pre[k].Numeric? && b.pre[k].Numeric? && a.pre[k].value < b.pre[k].value ==> Below(a, b)
    ensures k < |a.pre| && a.pre[k].Numeric? && b.pre[k].Alphanumeric? ==> Below(a, b)
    ensures (&& k < |a.pre| && a.pre[k].Alphanumeric? && b.pre[k].Alphanumeric?
             && TextBelow(a.pre[k].text, b.pre[k].text)) ==> Below(a, b)
  {
    hide StringLeq;
    ListsCompare(a.pre, b.pre, k);
    if k < |a.pre| && a.pre[k].Alphanumeric? && b.pre[k].Alphanumeric? && TextBelow(a.pre[k].text, b.pre[k].text) {
      TextsCompare(a.pre[k].text, b.pre[k].text);
    }
    assert k < |a.pre| && a.pre[k] != b.pre[k] ==> a.pre != b.pre;
  }

  /** Build metadata breaks ties between versions of one precedence, in the same way. */
  lemma BuildBreaksTies(a: Version, b: Version, k: nat)
    requires SameCore(a, b) && a.pre == b.pre && k < |b.build| && k <= |a.build| && a.build[..k] == b.build[..k]
    ensures k == |a.build| ==> Below(a, b)
    ensures k < |a.build| && IdentifierLess(a.build[k], b.build[k]) ==> Below(a, b)
  {
    ListsCompare(a.build, b.build, k);
  }

  /** At the first different identifier, or at the end of the shorter list. */
  lemma {:induction false} ListsCompare(a: seq<Identifier>, b: seq<Identifier>, k: nat)
    requires k < |b| && k <= |a| && a[..k] == b[..k]
    ensures k == |a| ==> IdentifiersLeq(a, b) && !IdentifiersLeq(b, a)
    ensures k < |a| && IdentifierLess(a[k], b[k]) ==> IdentifiersLeq(a, b) && !IdentifiersLeq(b, a)
  {
    if k > 0 {
      assert a[0] == a[..k][0] == b[..k][0] == b[0];
      assert a[1..][..k - 1] == a[..k][1..] && b[1..][..k - 1] == b[..k][1..];
      IdentifierOrder(a[0], b[0], a[0]);
      ListsCompare(a[1..], b[1..], k - 1);
    } else if a != [] {
      IdentifierOrder(a[0], b[0], a[0]);
    }
  }

  /** One text is below another: a proper beginning of it, or with a smaller character where they first differ. */
  ghost predicate TextBelow(s: string, t: string) {
    exists k :: TextBelowAt(s, t, k)
  }

  predicate TextBelowAt(s: string, t: string, k: int) {
    0 <= k <= |s| && k < |t| && s[..k] == t[..k] && (k < |s| ==> s[k] < t[k])
  }

  /** Texts compare by their first differing character, or the beginning of the other is below it. */
  lemma TextsCompare(s: string, t: string)
    ensures IdentifierLess(Alphanumeric(s), Alphanumeric(t)) <==> TextBelow(s, t)
  {
    hide StringLeq;
    var k := 0;
    while k < |s| && k < |t| && s[k] == t[k]
      invariant k <= |s| && k <= |t| && s[..k] == t[..k]
    {
      k := k + 1;
    }
    StringLeqByFirstDifference(s, t, k);
    StringLeqByFirstDifference(t, s, k);
    assert IdentifierLess(Alphanumeric(s), Alphanumeric(t)) ==> TextBelowAt(s, t, k);
    forall j | TextBelowAt(s, t, j)
      ensures IdentifierLess(Alphanumeric(s), Alphanumeric(t))
    {
      StringLeqByFirstDifference(s, t, j);
      StringLeqByFirstDifference(t, s, j);
    }
  }

  /** Numbers compare by value; leading zeros, which only build metadata may have, come after. */
  lemma NumbersCompare(m: nat, y: nat, n: nat, z: nat, text: string)
    ensures m < n ==> IdentifierLess(Numeric(m, y), Numeric(n, z))
    ensures y < z ==> IdentifierLess(Numeric(m, y), Numeric(m, z))
    ensures IdentifierLess(Numeric(m, y), Alphanumeric(text))
  {
  }
}
