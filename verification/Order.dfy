/** Byte order of paths and strings, and iteration of a sorted map in key order. */
module Order {
  import opened Basics

  /** Lexicographic order on code sequences; a proper prefix comes first. */
  predicate Leq(a: seq<int>, b: seq<int>) {
    |a| == 0 || (|b| != 0 && (a[0] < b[0] || (a[0] == b[0] && Leq(a[1..], b[1..]))))
  }

  lemma {:induction false} LeqReflexive(a: seq<int>)
    ensures Leq(a, a)
  {
    if a != [] {
      LeqReflexive(a[1..]);
    }
  }

  lemma {:induction false} LeqAntisymmetric(a: seq<int>, b: seq<int>)
    requires Leq(a, b) && Leq(b, a)
    ensures a == b
  {
    if a != [] {
      LeqAntisymmetric(a[1..], b[1..]);
      assert a == [a[0]] + a[1..] && b == [b[0]] + b[1..];
    }
  }

  lemma {:induction false} LeqTransitive(a: seq<int>, b: seq<int>, c: seq<int>)
    requires Leq(a, b) && Leq(b, c)
    ensures Leq(a, c)
  {
    if a != [] && a[0] == b[0] == c[0] {
      LeqTransitive(a[1..], b[1..], c[1..]);
    }
  }

  lemma {:induction false} LeqTotal(a: seq<int>, b: seq<int>)
    ensures Leq(a, b) || Leq(b, a)
  {
    if a != [] && b != [] && a[0] == b[0] {
      LeqTotal(a[1..], b[1..]);
    }
  }

  /** The first difference decides; without one the shorter comes first. */
  lemma {:induction false} LeqByFirstDifference(a: seq<int>, b: seq<int>, k: nat)
    requires k <= |a| && k <= |b| && a[..k] == b[..k]
    ensures k < |a| && k < |b| && a[k] != b[k] ==> (Leq(a, b) <==> a[k] < b[k])
    ensures k == |a| ==> Leq(a, b)
    ensures k == |b| < |a| ==> !Leq(a, b)
  {
    if k > 0 {
      assert a[0] == a[..k][0] == b[..k][0] == b[0];
      assert a[1..][..k - 1] == a[..k][1..] && b[1..][..k - 1] == b[..k][1..];
      LeqByFirstDifference(a[1..], b[1..], k - 1);
    }
  }

  function Codes(s: string): (r: seq<int>)
    ensures |r| == |s|
    ensures forall i :: 0 <= i < |s| ==> r[i] == s[i] as int
  {
    seq(|s|, i requires 0 <= i < |s| => s[i] as int)
  }

  /** `str::cmp`: UTF-8 byte order, which is the order of the code points. */
  predicate StringLeq(a: string, b: string) {
    Leq(Codes(a), Codes(b))
  }

  /** Strings compare by the first character in which they differ; a proper prefix comes first. */
  lemma StringLeqByFirstDifference(a: string, b: string, k: nat)
    requires k <= |a| && k <= |b| && a[..k] == b[..k]
    ensures k < |a| && k < |b| && a[k] != b[k] ==> (StringLeq(a, b) <==> a[k] < b[k])
    ensures k == |a| ==> StringLeq(a, b)
    ensures k == |b| < |a| ==> !StringLeq(a, b)
  {
    forall i | 0 <= i < k
      ensures Codes(a)[i] == Codes(b)[i]
    {
      assert a[i] == a[..k][i] == b[..k][i] == b[i];
    }
    assert Codes(a)[..k] == Codes(b)[..k];
    LeqByFirstDifference(Codes(a), Codes(b), k);
  }

  lemma StringLeqAntisymmetric(a: string, b: string)
    requires StringLeq(a, b) && StringLeq(b, a)
    ensures a == b
  {
    LeqAntisymmetric(Codes(a), Codes(b));
    forall i | 0 <= i < |a|
      ensures a[i] == b[i]
    {
      assert Codes(a)[i] == Codes(b)[i];
    }
  }

  predicate IsLeast(k: string, keys: set<string>) {
    k in keys && forall x :: x in keys ==> StringLeq(k, x)
  }

  lemma {:induction false} LeastExists(keys: set<string>)
    requires keys != {}
    ensures exists k :: IsLeast(k, keys)
  {
    var x :| x in keys;
    var rest := keys - {x};
    if rest == {} {
      LeqReflexive(Codes(x));
      assert keys == {x};
      assert IsLeast(x, keys);
    } else {
      LeastExists(rest);
      var k :| IsLeast(k, rest);
      LeqTotal(Codes(k), Codes(x));
      LeqReflexive(Codes(x));
      if StringLeq(k, x) {
        assert IsLeast(k, keys);
      } else {
        forall y | y in keys
          ensures StringLeq(x, y)
        {
          if y != x {
            assert StringLeq(k, y);
            LeqTransitive(Codes(x), Codes(k), Codes(y));
          }
        }
        assert IsLeast(x, keys);
      }
    }
  }

  lemma LeastUnique(a: string, b: string, keys: set<string>)
    requires IsLeast(a, keys) && IsLeast(b, keys)
    ensures a == b
  {
    StringLeqAntisymmetric(a, b);
  }

  function Least(keys: set<string>): (k: string)
    requires keys != {}
    ensures IsLeast(k, keys)
  {
    LeastExists(keys);
    assert forall a, b :: IsLeast(a, keys) && IsLeast(b, keys) ==> a == b by {
      forall a, b | IsLeast(a, keys) && IsLeast(b, keys)
        ensures a == b
      {
        LeastUnique(a, b, keys);
      }
    }
    var k :| IsLeast(k, keys);
    k
  }

  /** The keys of a `BTreeMap` in iteration order. */
  function SortedKeys(keys: set<string>): (r: seq<string>)
    ensures |r| == |keys|
    ensures forall k :: k in r <==> k in keys
    ensures Distinct(r)
  {
    if keys == {} then []
    else
      var k := Least(keys);
      [k] + SortedKeys(keys - {k})
  }

  lemma SortedKeysUnfold(keys: set<string>)
    requires keys != {}
    ensures SortedKeys(keys) == [Least(keys)] + SortedKeys(keys - {Least(keys)})
  {
  }

  /** Iteration runs in ascending key order. */
  lemma {:induction false} SortedKeysAscend(keys: set<string>, i: nat, j: nat)
    requires i < j < |keys|
    ensures StringLeq(SortedKeys(keys)[i], SortedKeys(keys)[j])
  {
    hide SortedKeys, StringLeq;
    var k := Least(keys);
    SortedKeysUnfold(keys);
    if i == 0 {
      assert SortedKeys(keys)[j] in SortedKeys(keys);
    } else {
      SortedKeysAscend(keys - {k}, i - 1, j - 1);
    }
  }
}
