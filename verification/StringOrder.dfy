/** Strings in code point order, as Python's `<` and `sorted` order them. */
module StringOrder {

  predicate Less(s: string, t: string) {
    t != [] && (s == [] || s[0] < t[0] || (s[0] == t[0] && Less(s[1..], t[1..])))
  }

  /** The texts agree up to a position where the first has ended, or has the smaller character. */
  predicate SmallerAt(s: string, t: string, n: nat) {
    n <= |s| && n < |t| && s[..n] == t[..n] && (n == |s| || s[n] < t[n])
  }

  lemma {:induction false} LessMeans(s: string, t: string)
    ensures Less(s, t) <==> exists n :: SmallerAt(s, t, n)
    decreases |s|
  {
    if s == [] || t == [] || s[0] != t[0] {
      if Less(s, t) {
        assert SmallerAt(s, t, 0);
      }
    } else {
      LessMeans(s[1..], t[1..]);
      forall n: nat
        ensures SmallerAt(s[1..], t[1..], n) <==> SmallerAt(s, t, n + 1)
      {
        if n < |s| && n < |t| {
          assert s[..n + 1] == [s[0]] + s[1..][..n] && t[..n + 1] == [t[0]] + t[1..][..n];
        }
      }
      forall n: nat | SmallerAt(s, t, n)
        ensures SmallerAt(s[1..], t[1..], n - 1)
      {
      }
    }
  }

  lemma {:induction false} LessTotal(s: string, t: string)
    ensures s == t || Less(s, t) || Less(t, s)
  {
    if s != [] && t != [] && s[0] == t[0] {
      LessTotal(s[1..], t[1..]);
      assert s == [s[0]] + s[1..] && t == [t[0]] + t[1..];
    }
  }

  lemma {:induction false} LessAsymmetric(s: string, t: string)
    requires Less(s, t)
    ensures s != t && !Less(t, s)
  {
    if s != [] && s[0] == t[0] {
      LessAsymmetric(s[1..], t[1..]);
    }
  }

  lemma {:induction false} LessTransitive(s: string, t: string, u: string)
    requires Less(s, t) && Less(t, u)
    ensures Less(s, u)
  {
    if s != [] && s[0] == t[0] && t[0] == u[0] {
      LessTransitive(s[1..], t[1..], u[1..]);
    }
  }

  predicate IsLeast(keys: set<string>, k: string) {
    k in keys && forall j :: j in keys ==> j == k || Less(k, j)
  }

  lemma {:induction false} LeastExists(keys: set<string>)
    requires keys != {}
    ensures exists k :: IsLeast(keys, k)
    decreases |keys|
  {
    var x :| x in keys;
    var rest := keys - {x};
    if rest == {} {
      assert keys == {x};
      assert IsLeast(keys, x);
    } else {
      LeastExists(rest);
      var k :| IsLeast(rest, k);
      LessTotal(x, k);
      if Less(x, k) {
        forall j | j in keys
          ensures j == x || Less(x, j)
        {
          if j != x && j != k {
            LessTransitive(x, k, j);
          }
        }
        assert IsLeast(keys, x);
      } else {
        assert IsLeast(keys, k);
      }
    }
  }

  function Least(keys: set<string>): (k: string)
    requires keys != {}
    ensures IsLeast(keys, k)
  {
    LeastExists(keys);
    assert forall j, k :: IsLeast(keys, j) && IsLeast(keys, k) ==> j == k by {
      forall j, k | IsLeast(keys, j) && IsLeast(keys, k)
        ensures j == k
      {
        if j != k {
          LessAsymmetric(j, k);
        }
      }
    }
    var k :| IsLeast(keys, k);
    k
  }

  /** `sorted` of a set of strings. */
  function Sorted(keys: set<string>): (r: seq<string>)
    ensures forall k :: k in r <==> k in keys
    ensures forall i, j :: 0 <= i < j < |r| ==> Less(r[i], r[j])
    decreases |keys|
  {
    if keys == {} then []
    else
      var k := Least(keys);
      [k] + Sorted(keys - {k})
  }

  predicate Distinct<T(==)>(s: seq<T>) {
    forall i, j :: 0 <= i < j < |s| ==> s[i] != s[j]
  }

  lemma SortedDistinct(keys: set<string>)
    ensures Distinct(Sorted(keys))
  {
    var r := Sorted(keys);
    forall i, j | 0 <= i < j < |r|
      ensures r[i] != r[j]
    {
      LessAsymmetric(r[i], r[j]);
    }
  }

  lemma SortedSingleton(key: string)
    ensures Sorted({key}) == [key]
  {
    assert Least({key}) == key;
    assert {key} - {key} == {};
  }

  lemma SortedPair(x: string, y: string)
    requires x != y
    ensures Sorted({x, y}) == [x, y] || Sorted({x, y}) == [y, x]
  {
    var k := Least({x, y});
    if k == x {
      assert {x, y} - {k} == {y};
      SortedSingleton(y);
    } else {
      assert {x, y} - {k} == {x};
      SortedSingleton(x);
    }
  }
}
